/**
 * The PLIC as one clocked machine: the register block with its bus handshakes, composed with the
 * logic module, for any number of sources and contexts.
 */
module PlicMachine {
  import opened Bits
  import opened Options
  import opened PlicArbiter
  import PlicEmitter

  /** What a bus address decodes to. */
  datatype Target = Priority(i: nat) | Pending | Enable(ctx: nat) | Threshold(ctx: nat) | Claim(ctx: nat) | Unmapped

  datatype Bus = Bus(
    awValid: bool, wValid: bool, awAddr: Target, wData: nat, bReady: bool,
    arValid: bool, arAddr: Target, rReady: bool)

  /** One cycle of the environment: bus signals, interrupt lines and the configured priorities. */
  datatype Input = Input(bus: Bus, source: BitVec, prio: seq<nat>)

  datatype Cfg = Cfg(n: nat, ctxs: nat)

  datatype Ctx = Ctx(enable: BitVec, threshold: nat, claim: nat, claimed: BitVec, wrPulseD: bool)

  datatype State = State(ctx: seq<Ctx>, pending: BitVec, bresp: bool, rresp: bool, rdata: nat)

  function InitCtx(n: nat): Ctx {
    Ctx(Zeros(n + 1), 0, 0, Zeros(n + 1), false)
  }

  function Init(cfg: Cfg): State {
    State(seq(cfg.ctxs, c => InitCtx(cfg.n)), Zeros(cfg.n + 1), false, false, 0)
  }

  // ----- The specification of one clock edge -----

  predicate WrFire(s: State, bus: Bus) { bus.awValid && bus.wValid && !s.bresp }

  predicate RdFire(s: State, bus: Bus) { bus.arValid && !s.rresp }

  /** The accesses that fire on one context's registers in a cycle. */
  datatype Access = Access(readClaim: bool, claim: Option<nat>, enable: Option<nat>, threshold: Option<nat>)

  function AccessOf(s: State, bus: Bus, c: nat): Access {
    var wr := (t: Target) => if WrFire(s, bus) && bus.awAddr == t then Some(bus.wData) else None;
    Access(RdFire(s, bus) && bus.arAddr == Claim(c), wr(Claim(c)), wr(Enable(c)), wr(Threshold(c)))
  }

  function CtxRequest(x: Ctx, source: BitVec, prio: seq<nat>): Request {
    Request(source, x.enable, prio, x.threshold, x.claimed)
  }

  function CtxWinner(n: nat, x: Ctx, source: BitVec, prio: seq<nat>): nat {
    Winner(n, CtxRequest(x, source, prio))
  }

  /** The claim field keeps as many bits of the write data as an ID needs. */
  function ClaimField(n: nat, data: nat): nat {
    data % Pow2(IdWidth(n))
  }

  function CtxNext(n: nat, x: Ctx, source: BitVec, prio: seq<nat>, a: Access): Ctx {
    Ctx(
      if a.enable.Some? then FromNat(a.enable.value, n + 1) else x.enable,
      if a.threshold.Some? then a.threshold.value % 8 else x.threshold,
      if a.claim.Some? then ClaimField(n, a.claim.value) else CtxWinner(n, x, source, prio),
      ClaimedNext(n, x.claimed, x.claim, a.readClaim, x.wrPulseD),
      a.claim.Some?)
  }

  function ReadMux(s: State, t: Target, prio: seq<nat>): nat {
    match t
    case Priority(i) => if i < |prio| then prio[i] else 0
    case Pending => ToNat(s.pending)
    case Enable(c) => if c < |s.ctx| then ToNat(s.ctx[c].enable) else 0
    case Threshold(c) => if c < |s.ctx| then s.ctx[c].threshold else 0
    case Claim(c) => if c < |s.ctx| then s.ctx[c].claim else 0
    case Unmapped => 0
  }

  function Step(cfg: Cfg, s: State, i: Input): State {
    State(
      seq(|s.ctx|, c requires 0 <= c < |s.ctx| =>
        CtxNext(cfg.n, s.ctx[c], i.source, i.prio, AccessOf(s, i.bus, c))),
      i.source,
      WrFire(s, i.bus) || (s.bresp && !i.bus.bReady),
      RdFire(s, i.bus) || (s.rresp && !i.bus.rReady),
      if RdFire(s, i.bus) then ReadMux(s, i.bus.arAddr, i.prio) else s.rdata)
  }

  /** Bit `c` of `intr_out`. */
  function Intr(cfg: Cfg, s: State, i: Input, c: nat): bool
    requires c < |s.ctx|
  {
    CtxWinner(cfg.n, s.ctx[c], i.source, i.prio) != 0
  }

  // ----- The generated logic module drives exactly this machine -----

  function PortsOf(s: State, i: Input): PlicEmitter.Ports {
    PlicEmitter.Ports(i.source, i.prio,
      seq(|s.ctx|, c requires 0 <= c < |s.ctx| =>
        var x, a := s.ctx[c], AccessOf(s, i.bus, c);
        PlicEmitter.CtxPorts(x.enable, x.threshold, x.claim, x.claimed, x.wrPulseD, a.readClaim, a.claim.Some?)))
  }

  ghost predicate Shapely(cfg: Cfg, s: State, i: Input) {
    && |s.ctx| == cfg.ctxs && |i.source| == |i.prio| == cfg.n + 1
    && forall c :: 0 <= c < cfg.ctxs ==> |s.ctx[c].enable| == |s.ctx[c].claimed| == cfg.n + 1
  }

  lemma PortsAreRequests(cfg: Cfg, s: State, i: Input, c: nat)
    requires cfg.n >= 1 && c < cfg.ctxs && Shapely(cfg, s, i)
    ensures PlicEmitter.PortsShaped(cfg.n, cfg.ctxs, PortsOf(s, i))
    ensures PlicEmitter.RequestOf(PortsOf(s, i), c) == CtxRequest(s.ctx[c], i.source, i.prio)
  {
    assert forall k :: 0 <= k < cfg.ctxs ==>
             PlicEmitter.RequestOf(PortsOf(s, i), k) == CtxRequest(s.ctx[k], i.source, i.prio);
  }

  lemma IntrIsCandidate(n: nat, q: Request)
    ensures Winner(n, q) != 0 <==> exists k :: 1 <= k <= n && Cand(q, k)
  {
    RunningIsCandidate(q, n);
  }

  /** What the settled module computes is what one step of the machine takes, for any priorities. */
  lemma GeneratedLogicDrivesMachine(cfg: Cfg, s: State, i: Input, w: PlicEmitter.Wires, c: nat)
    requires cfg.n >= 1 && c < cfg.ctxs && Shapely(cfg, s, i)
    requires PlicEmitter.Settled(PlicEmitter.Module(cfg.n, cfg.ctxs).lets, PortsOf(s, i), w)
    ensures var m, p, x := PlicEmitter.Module(cfg.n, cfg.ctxs), PortsOf(s, i), Step(cfg, s, i).ctx[c];
            && x.claimed == PlicEmitter.EvalM(m.claimedNext[c], p, w)
            && x.wrPulseD == PlicEmitter.EvalB(m.wrPulseNext[c], p, w)
            && (!x.wrPulseD ==> x.claim == PlicEmitter.EvalN(m.claimDrive[c], p, w))
            && Intr(cfg, s, i, c) == PlicEmitter.IntrBit(m, p, w, c)
  {
    PortsAreRequests(cfg, s, i, c);
    PlicEmitter.EmittedModuleCorrect(cfg.n, cfg.ctxs, PortsOf(s, i), w, c);
    IntrIsCandidate(cfg.n, CtxRequest(s.ctx[c], i.source, i.prio));
  }

  // ----- The two clocked modules and their composition -----

  /** The memory-mapped register block. */
  class RegBlock {
    const cfg: Cfg
    var enable: seq<BitVec>
    var threshold: seq<nat>
    var claim: seq<nat>
    var pending: BitVec
    var bresp: bool
    var rresp: bool
    var rdata: nat

    ghost predicate Valid() reads this {
      |enable| == |threshold| == |claim| == cfg.ctxs
    }

    constructor (cfg: Cfg)
      ensures Valid() && this.cfg == cfg
      ensures enable == seq(cfg.ctxs, c => Zeros(cfg.n + 1))
      ensures threshold == claim == seq(cfg.ctxs, c => 0)
      ensures pending == Zeros(cfg.n + 1) && !bresp && !rresp && rdata == 0
    {
      this.cfg := cfg;
      enable, threshold, claim := seq(cfg.ctxs, c => Zeros(cfg.n + 1)), seq(cfg.ctxs, c => 0), seq(cfg.ctxs, c => 0);
      pending, bresp, rresp, rdata := Zeros(cfg.n + 1), false, false, 0;
    }

    function WrFires(bus: Bus): bool reads this { bus.awValid && bus.wValid && !bresp }

    function RdFires(bus: Bus): bool reads this { bus.arValid && !rresp }

    /** The combinational read multiplexer. */
    function Shown(t: Target, prio: seq<nat>): nat
      reads this
      requires Valid()
    {
      match t
      case Priority(i) => if i < |prio| then prio[i] else 0
      case Pending => ToNat(pending)
      case Enable(c) => if c < cfg.ctxs then ToNat(enable[c]) else 0
      case Threshold(c) => if c < cfg.ctxs then threshold[c] else 0
      case Claim(c) => if c < cfg.ctxs then claim[c] else 0
      case Unmapped => 0
    }

    /** The assignments of a fired bus write, which win over the hardware drives. */
    method Write(t: Target, data: nat)
      requires Valid()
      modifies this`enable, this`threshold, this`claim
      ensures Valid()
      ensures forall c :: 0 <= c < cfg.ctxs ==>
        && enable[c] == (if t == Enable(c) then FromNat(data, cfg.n + 1) else old(enable)[c])
        && threshold[c] == (if t == Threshold(c) then data % 8 else old(threshold)[c])
        && claim[c] == (if t == Claim(c) then data % Pow2(IdWidth(cfg.n)) else old(claim)[c])
    {
      match t
      case Enable(c) => if c < cfg.ctxs { enable := enable[c := FromNat(data, cfg.n + 1)]; }
      case Threshold(c) => if c < cfg.ctxs { threshold := threshold[c := data % 8]; }
      case Claim(c) => if c < cfg.ctxs { claim := claim[c := data % Pow2(IdWidth(cfg.n))]; }
      case _ =>
    }

    /** One edge: every right-hand side is sampled first, and the last assignment to a register wins. */
    method Clock(bus: Bus, prio: seq<nat>, hwPending: BitVec, hwClaim: seq<nat>)
      requires Valid() && |hwClaim| == cfg.ctxs
      modifies this
      ensures Valid()
      ensures bresp == (old(WrFires(bus)) || (old(bresp) && !bus.bReady))
      ensures rresp == (old(RdFires(bus)) || (old(rresp) && !bus.rReady))
      ensures pending == hwPending
      ensures rdata == if old(RdFires(bus)) then old(Shown(bus.arAddr, prio)) else old(rdata)
      ensures forall c :: 0 <= c < cfg.ctxs ==>
        var fired := old(WrFires(bus));
        && enable[c] == (if fired && bus.awAddr == Enable(c) then FromNat(bus.wData, cfg.n + 1) else old(enable)[c])
        && threshold[c] == (if fired && bus.awAddr == Threshold(c) then bus.wData % 8 else old(threshold)[c])
        && claim[c]
           == (if fired && bus.awAddr == Claim(c) then bus.wData % Pow2(IdWidth(cfg.n)) else hwClaim[c])
    {
      var wrFire, rdFire := WrFires(bus), RdFires(bus);
      var mux := Shown(bus.arAddr, prio);
      if bresp && bus.bReady { bresp := false; }
      if wrFire { bresp := true; }
      if rresp && bus.rReady { rresp := false; }
      if rdFire { rresp := true; }
      pending := hwPending;
      claim := hwClaim;
      if wrFire { Write(bus.awAddr, bus.wData); }
      if rdFire { rdata := mux; }
    }
  }

  /** The registers of the generated logic module. */
  class LogicBlock {
    const cfg: Cfg
    var claimed: seq<BitVec>
    var wrPulseD: seq<bool>

    ghost predicate Valid() reads this {
      |claimed| == |wrPulseD| == cfg.ctxs
    }

    constructor (cfg: Cfg)
      ensures Valid() && this.cfg == cfg
      ensures claimed == seq(cfg.ctxs, c => Zeros(cfg.n + 1)) && wrPulseD == seq(cfg.ctxs, c => false)
    {
      this.cfg := cfg;
      claimed, wrPulseD := seq(cfg.ctxs, c => Zeros(cfg.n + 1)), seq(cfg.ctxs, c => false);
    }

    method Clock(claim: seq<nat>, readPulse: seq<bool>, writePulse: seq<bool>)
      requires Valid() && |claim| == |readPulse| == |writePulse| == cfg.ctxs
      modifies this
      ensures Valid() && wrPulseD == writePulse
      ensures forall c :: 0 <= c < cfg.ctxs ==>
                claimed[c] == ClaimedNext(cfg.n, old(claimed[c]), claim[c], readPulse[c], old(wrPulseD[c]))
    {
      for c := 0 to cfg.ctxs
        invariant Valid() && wrPulseD[c..] == old(wrPulseD[c..]) && wrPulseD[..c] == writePulse[..c]
        invariant forall k :: 0 <= k < c ==>
                    claimed[k] == ClaimedNext(cfg.n, old(claimed[k]), claim[k], readPulse[k], old(wrPulseD[k]))
        invariant forall k :: c <= k < cfg.ctxs ==> claimed[k] == old(claimed[k])
      {
        assert wrPulseD[c] == wrPulseD[c..][0] == old(wrPulseD[c]);
        claimed := claimed[c := ClaimedNext(cfg.n, claimed[c], claim[c], readPulse[c], wrPulseD[c])];
        wrPulseD := wrPulseD[c := writePulse[c]];
      }
    }
  }

  /** A context whose registers each took what the two modules assign has taken its step. */
  lemma ContextTakesStep(n: nat, s: State, i: Input, c: nat, x: Ctx, next: Ctx)
    requires var bus, fired := i.bus, WrFire(s, i.bus);
             && next.enable == (if fired && bus.awAddr == Enable(c) then FromNat(bus.wData, n + 1) else x.enable)
             && next.threshold == (if fired && bus.awAddr == Threshold(c) then bus.wData % 8 else x.threshold)
             && next.claim
                == (if fired && bus.awAddr == Claim(c) then bus.wData % Pow2(IdWidth(n))
                    else CtxWinner(n, x, i.source, i.prio))
             && next.claimed
                == ClaimedNext(n, x.claimed, x.claim, RdFire(s, bus) && bus.arAddr == Claim(c), x.wrPulseD)
             && next.wrPulseD == (fired && bus.awAddr == Claim(c))
    ensures next == CtxNext(n, x, i.source, i.prio, AccessOf(s, i.bus, c))
  {
  }

  class Plic {
    const cfg: Cfg
    const regs: RegBlock
    const logic: LogicBlock

    ghost predicate Valid() reads this, regs, logic {
      regs.Valid() && logic.Valid() && regs.cfg == logic.cfg == cfg
    }

    ghost function View(): State
      reads this, regs, logic
      requires Valid()
    {
      State(
        seq(cfg.ctxs, c requires 0 <= c < cfg.ctxs && Valid() reads this, regs, logic =>
          Ctx(regs.enable[c], regs.threshold[c], regs.claim[c], logic.claimed[c], logic.wrPulseD[c])),
        regs.pending, regs.bresp, regs.rresp, regs.rdata)
    }

    constructor (cfg: Cfg)
      ensures Valid() && this.cfg == cfg && fresh(regs) && fresh(logic)
      ensures View() == Init(cfg)
    {
      this.cfg := cfg;
      regs := new RegBlock(cfg);
      logic := new LogicBlock(cfg);
      new;
      assert View().ctx == Init(cfg).ctx;
    }

    function Requests(c: nat, source: BitVec, prio: seq<nat>): Request
      reads this, regs, logic
      requires regs.Valid() && logic.Valid() && regs.cfg == logic.cfg == cfg && c < cfg.ctxs
    {
      Request(source, regs.enable[c], prio, regs.threshold[c], logic.claimed[c])
    }

    /** The winners the logic module drives into the claim registers. */
    method Arbitrate(source: BitVec, prio: seq<nat>) returns (winners: seq<nat>)
      requires Valid()
      ensures |winners| == cfg.ctxs
      ensures forall k :: 0 <= k < cfg.ctxs ==> winners[k] == Winner(cfg.n, Requests(k, source, prio))
    {
      winners := [];
      for c := 0 to cfg.ctxs
        invariant |winners| == c
        invariant forall k :: 0 <= k < c ==> winners[k] == Winner(cfg.n, Requests(k, source, prio))
      {
        winners := winners + [Winner(cfg.n, Requests(c, source, prio))];
      }
    }

    /** Settle the wires between the two modules, then clock both. */
    method Clock(i: Input)
      requires Valid()
      modifies regs, logic
      ensures Valid()
      ensures View() == Step(cfg, old(View()), i)
    {
      var wrFire, rdFire := regs.WrFires(i.bus), regs.RdFires(i.bus);
      var readPulse := seq(cfg.ctxs, c requires c >= 0 => rdFire && i.bus.arAddr == Claim(c));
      var writePulse := seq(cfg.ctxs, c requires c >= 0 => wrFire && i.bus.awAddr == Claim(c));
      var winners := Arbitrate(i.source, i.prio);
      var claim := regs.claim;
      ghost var s := View();
      assert forall c :: 0 <= c < cfg.ctxs ==> winners[c] == CtxWinner(cfg.n, s.ctx[c], i.source, i.prio);
      assert regs.Shown(i.bus.arAddr, i.prio) == ReadMux(s, i.bus.arAddr, i.prio);
      assert wrFire == WrFire(s, i.bus) && rdFire == RdFire(s, i.bus);
      regs.Clock(i.bus, i.prio, i.source, winners);
      logic.Clock(claim, readPulse, writePulse);
      forall c | 0 <= c < cfg.ctxs ensures View().ctx[c] == Step(cfg, s, i).ctx[c] {
        assert s.ctx[c].claim == claim[c];
        ContextTakesStep(cfg.n, s, i, c, s.ctx[c], View().ctx[c]);
      }
      assert View().ctx == Step(cfg, s, i).ctx;
    }
  }

  // ----- Runs -----

  /** The environment of a run, cycle by cycle. */
  type Stimulus = nat -> Input

  /** A configuration, its environment, and the states it goes through. */
  datatype Run = Run(cfg: Cfg, ins: Stimulus, ss: nat -> State)

  ghost predicate StepsAt(r: Run, t: nat) {
    r.ss(t + 1) == Step(r.cfg, r.ss(t), r.ins(t))
  }

  /** The states start at reset and follow the machine's steps. */
  ghost predicate IsRun(r: Run) {
    r.ss(0) == Init(r.cfg) && forall t: nat :: StepsAt(r, t)
  }
}
