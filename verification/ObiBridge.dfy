/** The zero-state OBI to AXI4-Lite bridge, and the system bus that puts both generated blocks behind it. */
module ObiBridge {
  import opened Bits
  import opened Options
  import opened Counting
  import Clint
  import opened PlicArbiter
  import opened PlicMachine
  import opened PlicSafety

  /** The host's request in one cycle. */
  datatype Obi = Obi(req: bool, we: bool, addr: nat, wdata: Word)

  // ----- The bridge -----

  predicate WriteValid(o: Obi) { o.req && o.we }

  predicate ReadValid(o: Obi) { o.req && !o.we }

  /** The grant, from the slave's ready lines: each is high exactly when no response is outstanding on its channel. */
  predicate Gnt(o: Obi, bresp: bool, rresp: bool) {
    o.req && if o.we then !bresp else !rresp
  }

  const CLINT_SPAN := 0x10000
  const PLIC_SPAN := 0x400000

  function ClintInput(o: Obi, tick: bool): Clint.Input {
    var a := o.addr % CLINT_SPAN;
    Clint.Input(WriteValid(o), WriteValid(o), a, o.wdata, true, ReadValid(o), a, true, tick)
  }

  /** The word layout of the PLIC's address space. */
  function PlicTarget(cfg: Cfg, a: nat): Target {
    if a % 4 != 0 then Unmapped
    else if a / 4 <= cfg.n && a < 0x1000 then Priority(a / 4)
    else if a == 0x1000 then Pending
    else if 0x2000 <= a < 0x200000 && a % 0x80 == 0 && (a - 0x2000) / 0x80 < cfg.ctxs then Enable((a - 0x2000) / 0x80)
    else if a >= 0x200000 && a % 0x1000 == 0 && (a - 0x200000) / 0x1000 < cfg.ctxs then
      Threshold((a - 0x200000) / 0x1000)
    else if a >= 0x200000 && a % 0x1000 == 4 && (a - 0x200000) / 0x1000 < cfg.ctxs then
      Claim((a - 0x200000) / 0x1000)
    else Unmapped
  }

  function PlicBus(cfg: Cfg, o: Obi): Bus {
    var target := PlicTarget(cfg, o.addr % PLIC_SPAN);
    Bus(WriteValid(o), WriteValid(o), target, ToNat(o.wdata), true, ReadValid(o), target, true)
  }

  // ----- The system bus -----

  /** One cycle of everything outside: the core's request, interrupt sources, priorities and the other slaves' data. */
  datatype Env = Env(o: Obi, source: BitVec, prio: seq<nat>, ramData: nat, simData: nat)

  datatype Soc = Soc(clint: Clint.State, plic: State, ramValid: bool, simValid: bool)

  datatype Slave = Ram | SimCtrl | ClintSlave | PlicSlave

  function Base(d: Slave): nat {
    match d
    case Ram => 0x100000
    case SimCtrl => 0x20000
    case ClintSlave => 0x2000000
    case PlicSlave => 0xC000000
  }

  function Span(d: Slave): (n: nat)
    ensures n > 0
  {
    match d
    case Ram => 0x100000
    case SimCtrl => 0x400
    case ClintSlave => CLINT_SPAN
    case PlicSlave => PLIC_SPAN
  }

  /** `(addr & MASK) == BASE`: the mask clears the offset within the slave's span. */
  predicate Sel(d: Slave, addr: nat) {
    addr - addr % Span(d) == Base(d)
  }

  /** The request as one slave sees it. */
  function For(d: Slave, o: Obi): Obi {
    o.(req := o.req && Sel(d, o.addr))
  }

  function SocInit(cfg: Cfg): Soc {
    Soc(Clint.Init(), Init(cfg), false, false)
  }

  function PlicInput(cfg: Cfg, e: Env): Input {
    Input(PlicBus(cfg, For(PlicSlave, e.o)), e.source, e.prio)
  }

  /** RAM and simulator control answer one cycle after their request; the timer ticks every cycle. */
  function SocStep(cfg: Cfg, s: Soc, e: Env): Soc {
    Soc(
      Clint.Step(s.clint, ClintInput(For(ClintSlave, e.o), true)), Step(cfg, s.plic, PlicInput(cfg, e)),
      For(Ram, e.o).req, For(SimCtrl, e.o).req)
  }

  /** The grant of one slave's branch. */
  predicate Granted(s: Soc, o: Obi, d: Slave) {
    match d
    case Ram => For(d, o).req
    case SimCtrl => For(d, o).req
    case ClintSlave => Gnt(For(d, o), s.clint.bresp, s.clint.rresp)
    case PlicSlave => Gnt(For(d, o), s.plic.bresp, s.plic.rresp)
  }

  predicate Grant(s: Soc, o: Obi) {
    Granted(s, o, Ram) || Granted(s, o, SimCtrl) || Granted(s, o, ClintSlave) || Granted(s, o, PlicSlave)
  }

  predicate Responds(s: Soc, d: Slave) {
    match d
    case Ram => s.ramValid
    case SimCtrl => s.simValid
    case ClintSlave => s.clint.bresp || s.clint.rresp
    case PlicSlave => s.plic.bresp || s.plic.rresp
  }

  predicate RValid(s: Soc) {
    Responds(s, Ram) || Responds(s, SimCtrl) || Responds(s, ClintSlave) || Responds(s, PlicSlave)
  }

  /** The priority multiplexer over the response data. */
  function RData(s: Soc, e: Env): nat {
    if Responds(s, Ram) then e.ramData
    else if Responds(s, SimCtrl) then e.simData
    else if Responds(s, ClintSlave) then ToNat(s.clint.rdata)
    else if Responds(s, PlicSlave) then s.plic.rdata
    else 0
  }

  // ----- Decode -----

  predicate Mapped(addr: nat) {
    Sel(Ram, addr) || Sel(SimCtrl, addr) || Sel(ClintSlave, addr) || Sel(PlicSlave, addr)
  }

  /** Each slave owns exactly its span of addresses. */
  lemma SelSpan(d: Slave, addr: nat)
    ensures Sel(d, addr) <==> Base(d) <= addr < Base(d) + Span(d)
  {
  }

  /** The decoder is one-hot: no address selects two slaves. */
  lemma SelDisjoint(d: Slave, e: Slave, addr: nat)
    requires d != e
    ensures !(Sel(d, addr) && Sel(e, addr))
  {
    SelSpan(d, addr);
    SelSpan(e, addr);
  }

  /** The address of a register. */
  function PlicAddress(t: Target): nat
    requires !t.Unmapped?
  {
    match t
    case Priority(i) => 4 * i
    case Pending => 0x1000
    case Enable(c) => 0x2000 + 0x80 * c
    case Threshold(c) => 0x200000 + 0x1000 * c
    case Claim(c) => 0x200004 + 0x1000 * c
  }

  predicate Implemented(cfg: Cfg, t: Target) {
    match t
    case Priority(i) => i <= cfg.n
    case Pending => true
    case Enable(c) => c < cfg.ctxs
    case Threshold(c) => c < cfg.ctxs
    case Claim(c) => c < cfg.ctxs
    case Unmapped => false
  }

  lemma EnableOffset(c: nat)
    requires c <= 0x200
    ensures var a := 0x2000 + 0x80 * c; a % 4 == 0 && a % 0x80 == 0 && (a - 0x2000) / 0x80 == c && a < 0x200000
  {
  }

  lemma ContextOffset(c: nat, k: nat)
    requires k == 0 || k == 4
    ensures var a := 0x200000 + 0x1000 * c + k; a % 4 == 0 && a % 0x1000 == k && (a - 0x200000) / 0x1000 == c
  {
    var a := 0x200000 + 0x1000 * c + k;
    assert a == 0x1000 * (0x200 + c) + k && a == 4 * (0x400 * (0x200 + c) + k / 4);
    DivModUnique(a, 0x200 + c, k, 0x1000);
    DivModUnique(a, 0x400 * (0x200 + c) + k / 4, 0, 4);
  }

  /** Decoding inverts the address map: each register answers at its own address, and at no other. */
  lemma PlicDecodes(cfg: Cfg, t: Target)
    requires cfg.n < 0x400 && cfg.ctxs <= 0x200 && Implemented(cfg, t)
    ensures PlicTarget(cfg, PlicAddress(t)) == t
  {
    match t
    case Enable(c) => EnableOffset(c);
    case Threshold(c) => ContextOffset(c, 0);
    case Claim(c) => ContextOffset(c, 4);
    case _ =>
  }

  lemma PlicDecodesOnly(cfg: Cfg, a: nat)
    requires PlicTarget(cfg, a) != Unmapped
    ensures Implemented(cfg, PlicTarget(cfg, a)) && PlicAddress(PlicTarget(cfg, a)) == a
  {
  }

  // ----- Runs -----

  type Stimuli = nat -> Env

  type SocTrace = nat -> Soc

  ghost predicate SocStepsAt(cfg: Cfg, es: Stimuli, ss: SocTrace, t: nat) {
    ss(t + 1) == SocStep(cfg, ss(t), es(t))
  }

  ghost predicate IsSocRun(cfg: Cfg, es: Stimuli, ss: SocTrace) {
    ss(0) == SocInit(cfg) && forall t: nat :: SocStepsAt(cfg, es, ss, t)
  }

  /** A slave responds exactly in the cycle after a grant on its branch. */
  lemma SlaveAccounting(cfg: Cfg, s: Soc, e: Env, d: Slave)
    ensures Responds(SocStep(cfg, s, e), d) <==> Granted(s, e.o, d)
  {
  }

  lemma NoResponseAtReset(cfg: Cfg, d: Slave)
    ensures !Responds(SocInit(cfg), d)
  {
  }

  /** In every run, no two slaves ever respond in the same cycle. */
  lemma OneResponder(cfg: Cfg, es: Stimuli, ss: SocTrace, t: nat, d: Slave, e: Slave)
    requires IsSocRun(cfg, es, ss) && d != e
    ensures !(Responds(ss(t), d) && Responds(ss(t), e))
  {
    if t == 0 {
      NoResponseAtReset(cfg, d);
    } else {
      assert SocStepsAt(cfg, es, ss, t - 1);
      SlaveAccounting(cfg, ss(t - 1), es(t - 1), d);
      SlaveAccounting(cfg, ss(t - 1), es(t - 1), e);
      SelDisjoint(d, e, es(t - 1).o.addr);
    }
  }

  /** In every run, a response arrives exactly one cycle after a grant: as many responses as grants. */
  lemma ResponseIffGrant(cfg: Cfg, es: Stimuli, ss: SocTrace, t: nat)
    requires IsSocRun(cfg, es, ss)
    ensures RValid(ss(t + 1)) <==> Grant(ss(t), es(t).o)
  {
    assert SocStepsAt(cfg, es, ss, t);
    SlaveAccounting(cfg, ss(t), es(t), Ram);
    SlaveAccounting(cfg, ss(t), es(t), SimCtrl);
    SlaveAccounting(cfg, ss(t), es(t), ClintSlave);
    SlaveAccounting(cfg, ss(t), es(t), PlicSlave);
  }

  /** What the addressed slave shows of itself in a cycle. */
  function RegisterView(cfg: Cfg, s: Soc, e: Env, next: Env, d: Slave): nat {
    match d
    case Ram => next.ramData
    case SimCtrl => next.simData
    case ClintSlave => ToNat(Clint.ReadMux(s.clint, e.o.addr % CLINT_SPAN))
    case PlicSlave => ReadMux(s.plic, PlicTarget(cfg, e.o.addr % PLIC_SPAN), e.prio)
  }

  lemma SlaveData(cfg: Cfg, s: Soc, e: Env, next: Env, d: Slave)
    requires Granted(s, e.o, d) && !e.o.we
    ensures d.ClintSlave? ==> ToNat(SocStep(cfg, s, e).clint.rdata) == RegisterView(cfg, s, e, next, d)
    ensures d.PlicSlave? ==> SocStep(cfg, s, e).plic.rdata == RegisterView(cfg, s, e, next, d)
  {
  }

  lemma DataOfResponder(s: Soc, e: Env, d: Slave)
    requires Responds(s, d) && forall q :: q != d ==> !Responds(s, q)
    ensures RData(s, e)
         == match d
            case Ram => e.ramData
            case SimCtrl => e.simData
            case ClintSlave => ToNat(s.clint.rdata)
            case PlicSlave => s.plic.rdata
  {
    assert d != Ram ==> !Responds(s, Ram);
    assert d != SimCtrl ==> !Responds(s, SimCtrl);
    assert d != ClintSlave ==> !Responds(s, ClintSlave);
  }

  /** In every run, a granted load returns, one cycle later, the addressed register as it was in the grant cycle. */
  lemma LoadReturnsView(cfg: Cfg, es: Stimuli, ss: SocTrace, t: nat, d: Slave)
    requires IsSocRun(cfg, es, ss) && Granted(ss(t), es(t).o, d) && !es(t).o.we
    ensures RValid(ss(t + 1)) && RData(ss(t + 1), es(t + 1)) == RegisterView(cfg, ss(t), es(t), es(t + 1), d)
  {
    assert SocStepsAt(cfg, es, ss, t);
    SlaveAccounting(cfg, ss(t), es(t), d);
    SlaveData(cfg, ss(t), es(t), es(t + 1), d);
    var next := ss(t + 1);
    forall q | q != d ensures !Responds(next, q) { OneResponder(cfg, es, ss, t + 1, d, q); }
    DataOfResponder(next, es(t + 1), d);
  }

  lemma GrantAfterStall(cfg: Cfg, s: Soc, e: Env, next: Env, d: Slave)
    requires next.o == e.o && For(d, e.o).req && !Granted(s, e.o, d)
    ensures Granted(SocStep(cfg, s, e), next.o, d)
  {
  }

  /** A request held for two cycles is granted in one of them if and only if its address is mapped. */
  lemma HeldRequestGranted(cfg: Cfg, es: Stimuli, ss: SocTrace, t: nat)
    requires IsSocRun(cfg, es, ss) && es(t).o.req && es(t + 1).o == es(t).o
    ensures Grant(ss(t), es(t).o) || Grant(ss(t + 1), es(t + 1).o) <==> Mapped(es(t).o.addr)
  {
    assert SocStepsAt(cfg, es, ss, t);
    if Sel(ClintSlave, es(t).o.addr) && !Granted(ss(t), es(t).o, ClintSlave) {
      GrantAfterStall(cfg, ss(t), es(t), es(t + 1), ClintSlave);
    }
    if Sel(PlicSlave, es(t).o.addr) && !Granted(ss(t), es(t).o, PlicSlave) {
      GrantAfterStall(cfg, ss(t), es(t), es(t + 1), PlicSlave);
    }
  }

  // ----- The claim protocol as the core sees it -----

  /** The PLIC's own run inside a run of the system. */
  ghost function PlicRun(cfg: Cfg, es: Stimuli, ss: SocTrace): Run {
    Run(cfg, (t: nat) => PlicInput(cfg, es(t)), (t: nat) => ss(t).plic)
  }

  lemma PlicInSoc(cfg: Cfg, es: Stimuli, ss: SocTrace)
    requires IsSocRun(cfg, es, ss)
    ensures IsRun(PlicRun(cfg, es, ss))
  {
    forall t: nat ensures StepsAt(PlicRun(cfg, es, ss), t) {
      assert SocStepsAt(cfg, es, ss, t);
    }
  }

  /** A granted access of the core to the claim register of context `c`. */
  predicate ClaimAccess(cfg: Cfg, s: Soc, o: Obi, c: nat) {
    Granted(s, o, PlicSlave) && PlicTarget(cfg, o.addr % PLIC_SPAN) == Claim(c)
  }

  /** A load from the claim register, granted at `t`, that returns `v`. */
  ghost predicate LoadsClaim(cfg: Cfg, es: Stimuli, ss: SocTrace, c: nat, t: nat, v: nat) {
    ClaimAccess(cfg, ss(t), es(t).o, c) && !es(t).o.we && RData(ss(t + 1), es(t + 1)) == v
  }

  /** A store to the claim register, granted at `t`, whose ID bits are `v`. */
  ghost predicate StoresClaim(cfg: Cfg, es: Stimuli, ss: SocTrace, c: nat, t: nat, v: nat) {
    ClaimAccess(cfg, ss(t), es(t).o, c) && es(t).o.we && ToNat(es(t).o.wdata) % Pow2(IdWidth(cfg.n)) == v
  }

  ghost predicate JustStored(cfg: Cfg, es: Stimuli, ss: SocTrace, c: nat, t: nat) {
    t > 0 && ClaimAccess(cfg, ss(t - 1), es(t - 1).o, c) && es(t - 1).o.we
  }

  lemma AccessInSoc(cfg: Cfg, s: Soc, e: Env, c: nat)
    ensures var a := AccessOf(s.plic, PlicInput(cfg, e).bus, c);
            && (a.readClaim <==> ClaimAccess(cfg, s, e.o, c) && !e.o.we)
            && (a.claim == if ClaimAccess(cfg, s, e.o, c) && e.o.we then Some(ToNat(e.o.wdata)) else None)
  {
  }

  lemma LoadIsClaimRead(cfg: Cfg, es: Stimuli, ss: SocTrace, c: nat, t: nat, v: nat)
    requires IsSocRun(cfg, es, ss) && c < cfg.ctxs && LoadsClaim(cfg, es, ss, c, t, v)
    ensures ClaimRead(PlicRun(cfg, es, ss), c, t, v)
  {
    PlicInSoc(cfg, es, ss);
    AccessInSoc(cfg, ss(t), es(t), c);
    LoadReturnsView(cfg, es, ss, t, PlicSlave);
    ContextCount(PlicRun(cfg, es, ss), t);
  }

  lemma ShadowIsJustStored(cfg: Cfg, es: Stimuli, ss: SocTrace, c: nat, t: nat)
    requires IsSocRun(cfg, es, ss)
    ensures Shadow(PlicRun(cfg, es, ss), c, t) <==> JustStored(cfg, es, ss, c, t)
  {
    if t > 0 {
      PlicInSoc(cfg, es, ss);
      AccessInSoc(cfg, ss(t - 1), es(t - 1), c);
    }
  }

  lemma CompletionIsStore(cfg: Cfg, es: Stimuli, ss: SocTrace, c: nat, t: nat, v: nat)
    requires IsSocRun(cfg, es, ss)
    ensures Completion(PlicRun(cfg, es, ss), c, t, v) <==> StoresClaim(cfg, es, ss, c, t, v)
  {
    PlicInSoc(cfg, es, ss);
    AccessInSoc(cfg, ss(t), es(t), c);
  }

  /** A load that does not follow a store right away is a claim read outside the shadow. */
  lemma LoadTakes(cfg: Cfg, es: Stimuli, ss: SocTrace, c: nat, t: nat, v: nat)
    requires IsSocRun(cfg, es, ss) && c < cfg.ctxs
    requires LoadsClaim(cfg, es, ss, c, t, v) && !JustStored(cfg, es, ss, c, t)
    ensures ClaimRead(PlicRun(cfg, es, ss), c, t, v) && !Shadow(PlicRun(cfg, es, ss), c, t)
  {
    LoadIsClaimRead(cfg, es, ss, c, t, v);
    ShadowIsJustStored(cfg, es, ss, c, t);
  }

  lemma StoreBetween(cfg: Cfg, es: Stimuli, ss: SocTrace, r: Run, c: nat, t1: nat, t2: nat, v: nat) returns (w: nat)
    requires IsSocRun(cfg, es, ss) && r == PlicRun(cfg, es, ss) && IsRun(r) && c < cfg.ctxs && t1 < t2 && v != 0
    requires ClaimRead(r, c, t1, v) && !Shadow(r, c, t1) && ClaimRead(r, c, t2, v)
    ensures t1 <= w < t2 && StoresClaim(cfg, es, ss, c, w, v)
    ensures !JustStored(cfg, es, ss, c, t2) ==> w + 3 <= t2
  {
    w := NoDoubleClaim(r, c, t1, t2, v);
    CompletionIsStore(cfg, es, ss, c, w, v);
    ShadowIsJustStored(cfg, es, ss, c, t2);
  }

  lemma LoadIsNoStore(cfg: Cfg, es: Stimuli, ss: SocTrace, c: nat, t: nat, v: nat, u: nat)
    requires LoadsClaim(cfg, es, ss, c, t, v)
    ensures !StoresClaim(cfg, es, ss, c, t, u)
  {
  }

  /**
   * No double claim, end to end: if the core loads a nonzero ID from one context's claim register, not right after
   * a store to it, and later loads the same ID there again, then in between it stored that ID there; at least
   * three cycles before the second load, unless that one comes right after the store.
   */
  lemma CoreNeverClaimsTwice(cfg: Cfg, es: Stimuli, ss: SocTrace, c: nat, t1: nat, t2: nat, v: nat) returns (w: nat)
    requires IsSocRun(cfg, es, ss) && c < cfg.ctxs && t1 < t2 && v != 0
    requires LoadsClaim(cfg, es, ss, c, t1, v) && !JustStored(cfg, es, ss, c, t1)
    requires LoadsClaim(cfg, es, ss, c, t2, v)
    ensures t1 < w < t2 && StoresClaim(cfg, es, ss, c, w, v)
    ensures !JustStored(cfg, es, ss, c, t2) ==> w + 3 <= t2
  {
    LoadTakes(cfg, es, ss, c, t1, v);
    LoadIsClaimRead(cfg, es, ss, c, t2, v);
    LoadIsNoStore(cfg, es, ss, c, t1, v, v);
    PlicInSoc(cfg, es, ss);
    w := StoreBetween(cfg, es, ss, PlicRun(cfg, es, ss), c, t1, t2, v);
  }
}
