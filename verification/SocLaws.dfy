/** What stores and loads do in the system: each lands on, or shows, exactly the register at its address. */
module SocLaws {
  import opened Bits
  import opened Options
  import opened Counting
  import Clint
  import opened PlicArbiter
  import opened PlicMachine
  import opened PlicSafety
  import opened ObiBridge

  // ----- The address map -----

  /** The request falls into the range of addresses. */
  predicate Within(addr: nat, base: nat, span: nat) {
    base <= addr < base + span
  }

  /** Who is asked: 1 MiB of RAM, 1 KiB of simulator control, 64 KiB of timer and 4 MiB of interrupt controller. */
  lemma AddressMap(addr: nat)
    ensures Sel(Ram, addr) <==> Within(addr, 0x100000, 0x100000)
    ensures Sel(SimCtrl, addr) <==> Within(addr, 0x20000, 0x400)
    ensures Sel(ClintSlave, addr) <==> Within(addr, 0x2000000, 0x10000)
    ensures Sel(PlicSlave, addr) <==> Within(addr, 0xC000000, 0x400000)
  {
    SelSpan(Ram, addr);
    SelSpan(SimCtrl, addr);
    SelSpan(ClintSlave, addr);
    SelSpan(PlicSlave, addr);
  }

  lemma GrantOf(s: Soc, o: Obi, d: Slave)
    requires Sel(d, o.addr)
    ensures Grant(s, o) <==> Granted(s, o, d)
  {
    forall e: Slave | e != d ensures !Granted(s, o, e) { SelDisjoint(d, e, o.addr); }
    assert d.Ram? || d.SimCtrl? || d.ClintSlave? || d.PlicSlave?;
  }

  /** A store to `addr` is granted in this cycle. */
  predicate Stores(s: Soc, o: Obi, addr: nat) {
    Grant(s, o) && o.we && o.addr == addr
  }

  /** A load from `addr` is granted in this cycle. */
  predicate Loads(s: Soc, o: Obi, addr: nat) {
    Grant(s, o) && !o.we && o.addr == addr
  }

  // ----- Stores to the timer -----

  lemma OffsetInSpan(base: nat, span: nat, a: nat)
    requires span > 0 && base % span == 0 && a < span
    ensures (base + a) % span == a
  {
    assert base == span * (base / span);
    DivModUnique(base + a, base / span, a, span);
  }

  /** A bus write lands on offset `a` of the timer exactly when a store to that address is granted. */
  lemma ClintLands(cfg: Cfg, s: Soc, e: Env, a: nat)
    requires a < 0x10000
    ensures Clint.Lands(s.clint, ClintInput(For(ClintSlave, e.o), true), a) <==> Stores(s, e.o, 0x2000000 + a)
  {
    AddressMap(e.o.addr);
    OffsetInSpan(0x2000000, 0x10000, a);
    if Sel(ClintSlave, e.o.addr) {
      GrantOf(s, e.o, ClintSlave);
      OffsetInSpan(0x2000000, 0x10000, e.o.addr - 0x2000000);
    }
  }

  /** The timer registers after one cycle of the system. */
  ghost predicate TimerStores(s: Soc, o: Obi, now: Clint.State, next: Clint.State) {
    && next.msip == (if Stores(s, o, 0x2000000) then o.wdata[0] else now.msip)
    && next.cmpLow == (if Stores(s, o, 0x2004000) then o.wdata else now.cmpLow)
    && next.cmpHigh == (if Stores(s, o, 0x2004004) then o.wdata else now.cmpHigh)
    && next.timeLow == (if Stores(s, o, 0x200BFF8) then o.wdata else Inc(now.timeLow + now.timeHigh)[..32])
    && next.timeHigh == (if Stores(s, o, 0x200BFFC) then o.wdata else Inc(now.timeLow + now.timeHigh)[32..])
  }

  lemma TimerStep(cfg: Cfg, s: Soc, e: Env)
    ensures TimerStores(s, e.o, s.clint, SocStep(cfg, s, e).clint)
  {
    ClintLands(cfg, s, e, 0x0);
    ClintLands(cfg, s, e, 0x4000);
    ClintLands(cfg, s, e, 0x4004);
    ClintLands(cfg, s, e, 0xBFF8);
    ClintLands(cfg, s, e, 0xBFFC);
  }

  /**
   * In every cycle of every run: a granted store to msip, to a half of mtimecmp or to a half of mtime leaves exactly
   * the stored word there (its bit 0 in msip); every register that is not stored to keeps its value, and mtime ticks.
   */
  lemma TimerStoresLand(cfg: Cfg, es: Stimuli, ss: SocTrace, t: nat)
    requires IsSocRun(cfg, es, ss)
    ensures TimerStores(ss(t), es(t).o, ss(t).clint, ss(t + 1).clint)
  {
    assert SocStepsAt(cfg, es, ss, t);
    TimerStep(cfg, ss(t), es(t));
  }

  // ----- The system's time -----

  function SocTime(ss: SocTrace): nat -> nat {
    (t: nat) => ToNat(ss(t).clint.timeLow + ss(t).clint.timeHigh)
  }

  function EveryCycle(): nat -> bool {
    (t: nat) => true
  }

  lemma {:induction false} CountEvery(t0: nat, t: nat)
    requires t0 <= t
    ensures CountIn(EveryCycle(), t0, t) == t - t0
  {
    if t > t0 { CountEvery(t0, t - 1); }
  }

  lemma TimeWraps(cfg: Cfg, es: Stimuli, ss: SocTrace, t: nat)
    requires IsSocRun(cfg, es, ss)
    requires !Stores(ss(t), es(t).o, 0x200BFF8) && !Stores(ss(t), es(t).o, 0x200BFFC)
    ensures SocTime(ss)(t) < Pow2(64) && Wraps(SocTime(ss), EveryCycle(), Pow2(64), t)
  {
    TimerStoresLand(cfg, es, ss, t);
    var now := ss(t).clint.timeLow + ss(t).clint.timeHigh;
    IncValue(now);
    assert |now| == 64;
    assert Inc(now) == Inc(now)[..32] + Inc(now)[32..];
  }

  ghost predicate TimeUnstored(es: Stimuli, ss: SocTrace, t: nat) {
    !Stores(ss(t), es(t).o, 0x200BFF8) && !Stores(ss(t), es(t).o, 0x200BFFC)
  }

  /** Between stores to it, mtime counts the cycles of the system, modulo 2^64. */
  lemma TimeCountsCycles(cfg: Cfg, es: Stimuli, ss: SocTrace, t0: nat, t: nat)
    requires IsSocRun(cfg, es, ss) && t0 < t && forall u: nat :: t0 <= u < t ==> TimeUnstored(es, ss, u)
    ensures SocTime(ss)(t) == (SocTime(ss)(t0) + (t - t0)) % Pow2(64)
  {
    assert TimeUnstored(es, ss, t0);
    TimeWraps(cfg, es, ss, t0);
    forall u: nat | t0 <= u < t ensures Wraps(SocTime(ss), EveryCycle(), Pow2(64), u) {
      assert TimeUnstored(es, ss, u);
      TimeWraps(cfg, es, ss, u);
    }
    WrapRun(SocTime(ss), EveryCycle(), Pow2(64), t0, t);
    CountEvery(t0, t);
  }

  // ----- Stores to the interrupt controller -----

  lemma PlicOffset(addr: nat)
    requires Within(addr, 0xC000000, 0x400000)
    ensures addr % PLIC_SPAN == addr - 0xC000000
  {
    OffsetInSpan(0xC000000, 0x400000, addr - 0xC000000);
  }

  /** The accesses that reach the interrupt controller, and the register each one means. */
  lemma PlicFires(cfg: Cfg, s: Soc, e: Env)
    ensures var bus, o := PlicInput(cfg, e).bus, e.o;
            var here := Grant(s, o) && Within(o.addr, 0xC000000, 0x400000);
            && (WrFire(s.plic, bus) <==> here && o.we) && (RdFire(s.plic, bus) <==> here && !o.we)
            && (here ==> bus.awAddr == bus.arAddr == PlicTarget(cfg, o.addr - 0xC000000))
            && bus.wData == ToNat(o.wdata)
  {
    AddressMap(e.o.addr);
    if Sel(PlicSlave, e.o.addr) {
      GrantOf(s, e.o, PlicSlave);
      PlicOffset(e.o.addr);
    }
  }

  /** A fired write or read on register `x` is a granted store or load at its address. */
  lemma PlicTargets(cfg: Cfg, s: Soc, e: Env, x: Target)
    requires cfg.n < 0x400 && cfg.ctxs <= 0x200 && Implemented(cfg, x) && PlicAddress(x) < 0x400000
    ensures var bus := PlicInput(cfg, e).bus;
            && (WrFire(s.plic, bus) && bus.awAddr == x <==> Stores(s, e.o, 0xC000000 + PlicAddress(x)))
            && (RdFire(s.plic, bus) && bus.arAddr == x <==> Loads(s, e.o, 0xC000000 + PlicAddress(x)))
  {
    PlicFires(cfg, s, e);
    PlicDecodes(cfg, x);
    if Within(e.o.addr, 0xC000000, 0x400000) && PlicTarget(cfg, e.o.addr - 0xC000000) == x {
      PlicDecodesOnly(cfg, e.o.addr - 0xC000000);
    }
  }

  /** The registers of context `c` after one cycle of the system. */
  ghost predicate ContextStores(cfg: Cfg, s: Soc, o: Obi, c: nat, now: Ctx, next: Ctx) {
    && |next.enable| == cfg.n + 1
    && (if Stores(s, o, 0xC002000 + 0x80 * c) then forall k: nat :: k <= cfg.n ==> next.enable[k] == Bit(o.wdata, k)
        else next.enable == now.enable)
    && next.threshold == (if Stores(s, o, 0xC200000 + 0x1000 * c) then ToNat(o.wdata[..3]) else now.threshold)
    && (Stores(s, o, 0xC200004 + 0x1000 * c) ==> next.claim == ToNat(o.wdata) % Pow2(IdWidth(cfg.n)))
  }

  lemma {:induction false} LowBitsValue(v: BitVec, w: nat)
    requires w <= |v|
    ensures ToNat(v[..w]) == ToNat(v) % Pow2(w)
  {
    if w > 0 {
      LowBitsValue(v[1..], w - 1);
      assert v[..w][1..] == v[1..][..w - 1];
      DoubledRemainder(if v[0] then 1 else 0, ToNat(v[1..]), Pow2(w - 1));
    }
  }

  lemma EnableBits(n: nat, w: Word)
    ensures forall k: nat :: k <= n ==> FromNat(ToNat(w), n + 1)[k] == Bit(w, k)
  {
    forall k: nat | k <= n ensures FromNat(ToNat(w), n + 1)[k] == Bit(w, k) { FromNatBit(w, n + 1, k); }
  }

  lemma ContextAccess(cfg: Cfg, s: Soc, e: Env, c: nat)
    requires cfg.n < 0x400 && cfg.ctxs <= 0x200 && c < cfg.ctxs
    ensures var a, w := AccessOf(s.plic, PlicInput(cfg, e).bus, c), ToNat(e.o.wdata);
            && a.enable == (if Stores(s, e.o, 0xC002000 + 0x80 * c) then Some(w) else None)
            && a.threshold == (if Stores(s, e.o, 0xC200000 + 0x1000 * c) then Some(w) else None)
            && a.claim == (if Stores(s, e.o, 0xC200004 + 0x1000 * c) then Some(w) else None)
            && (a.readClaim <==> Loads(s, e.o, 0xC200004 + 0x1000 * c))
  {
    PlicFires(cfg, s, e);
    PlicTargets(cfg, s, e, Enable(c));
    PlicTargets(cfg, s, e, Threshold(c));
    PlicTargets(cfg, s, e, Claim(c));
  }

  lemma ContextStep(cfg: Cfg, s: Soc, e: Env, c: nat, now: Ctx, next: Ctx)
    requires cfg.n < 0x400 && cfg.ctxs <= 0x200 && c < cfg.ctxs && |now.enable| == cfg.n + 1
    requires next == CtxNext(cfg.n, now, e.source, e.prio, AccessOf(s.plic, PlicInput(cfg, e).bus, c))
    ensures ContextStores(cfg, s, e.o, c, now, next)
  {
    ContextAccess(cfg, s, e, c);
    EnableBits(cfg.n, e.o.wdata);
    LowBitsValue(e.o.wdata, 3);
    assert Pow2(3) == 8;
  }

  /**
   * In every cycle of every run: a granted store to the enable or the threshold register of a context leaves exactly
   * the stored bits there, a store to its claim register the ID bits; an enable or threshold register that is not
   * stored to keeps its value.
   */
  lemma PlicStoresLand(cfg: Cfg, es: Stimuli, ss: SocTrace, t: nat, c: nat)
    requires IsSocRun(cfg, es, ss) && cfg.n < 0x400 && cfg.ctxs <= 0x200 && c < cfg.ctxs
    ensures var r := PlicRun(cfg, es, ss); ContextStores(cfg, ss(t), es(t).o, c, CtxAt(r, c, t), CtxAt(r, c, t + 1))
  {
    var r := PlicRun(cfg, es, ss);
    PlicInSoc(cfg, es, ss);
    CtxSteps(r, c, t);
    InvHolds(r, c, t);
    ContextStep(cfg, ss(t), es(t), c, CtxAt(r, c, t), CtxAt(r, c, t + 1));
  }

  /** A core that stores a source's ID to the claim register ends its service on that context, and no other's. */
  lemma StoreEndsService(cfg: Cfg, es: Stimuli, ss: SocTrace, t: nat, c: nat, v: nat, k: nat)
    requires IsSocRun(cfg, es, ss) && cfg.n < 0x400 && cfg.ctxs <= 0x200 && c < cfg.ctxs
    requires Stores(ss(t), es(t).o, 0xC200004 + 0x1000 * c) && 1 <= v <= cfg.n && ToNat(es(t).o.wdata) == v
    ensures var r := PlicRun(cfg, es, ss);
            InService(r, c, t + 2, k) <==> InService(r, c, t + 1, k) && k != v
  {
    PlicInSoc(cfg, es, ss);
    ContextAccess(cfg, ss(t), es(t), c);
    CompletionOfId(PlicRun(cfg, es, ss), c, t, v, k);
  }

  // ----- Loads -----

  /** What a load from each register of the timer shows. */
  ghost predicate TimerShows(s: Clint.State, addr: nat, data: nat) {
    && (addr == 0x2000000 ==> data == if s.msip then 1 else 0)
    && (addr == 0x2004000 ==> data == ToNat(s.cmpLow)) && (addr == 0x2004004 ==> data == ToNat(s.cmpHigh))
    && (addr == 0x200BFF8 ==> data == ToNat(s.timeLow)) && (addr == 0x200BFFC ==> data == ToNat(s.timeHigh))
    && (addr !in {0x2000000, 0x2004000, 0x2004004, 0x200BFF8, 0x200BFFC} ==> data == 0)
  }

  lemma {:induction false} ZerosValue(w: nat)
    ensures ToNat(Zeros(w)) == 0
  {
    if w > 0 {
      ZerosValue(w - 1);
      assert Zeros(w)[1..] == Zeros(w - 1);
    }
  }

  lemma SoftwareBitValue(b: bool)
    ensures ToNat([b] + Zeros(31)) == if b then 1 else 0
  {
    ZerosValue(31);
    assert ([b] + Zeros(31))[1..] == Zeros(31);
  }

  lemma TimerView(s: Clint.State, addr: nat)
    requires Within(addr, 0x2000000, 0x10000)
    ensures TimerShows(s, addr, ToNat(Clint.ReadMux(s, addr % CLINT_SPAN)))
  {
    OffsetInSpan(0x2000000, 0x10000, addr - 0x2000000);
    TimerOffset(s, addr - 0x2000000);
  }

  lemma TimerOffset(s: Clint.State, a: nat)
    requires a < 0x10000
    ensures TimerShows(s, 0x2000000 + a, ToNat(Clint.ReadMux(s, a)))
  {
    SoftwareBitValue(s.msip);
    ZerosValue(32);
  }

  /** In every run, a granted load from the timer's range returns the register at its address, or 0. */
  lemma TimerLoads(cfg: Cfg, es: Stimuli, ss: SocTrace, t: nat)
    requires IsSocRun(cfg, es, ss) && Loads(ss(t), es(t).o, es(t).o.addr)
    requires Within(es(t).o.addr, 0x2000000, 0x10000)
    ensures RValid(ss(t + 1)) && TimerShows(ss(t).clint, es(t).o.addr, RData(ss(t + 1), es(t + 1)))
  {
    AddressMap(es(t).o.addr);
    GrantOf(ss(t), es(t).o, ClintSlave);
    LoadReturnsView(cfg, es, ss, t, ClintSlave);
    TimerView(ss(t).clint, es(t).o.addr);
  }

  /** What a load from each register of the interrupt controller shows. */
  ghost predicate PlicShows(cfg: Cfg, s: State, prio: seq<nat>, addr: nat, data: nat) {
    && (forall i: nat :: i <= cfg.n && i < |prio| && addr == 0xC000000 + 4 * i ==> data == prio[i])
    && (addr == 0xC001000 ==> data == ToNat(s.pending))
    && (forall c: nat :: c < cfg.ctxs && c < |s.ctx| ==> ContextShows(s.ctx[c], c, addr, data))
    && ((forall x :: Implemented(cfg, x) ==> addr != 0xC000000 + PlicAddress(x)) ==> data == 0)
  }

  predicate ContextShows(x: Ctx, c: nat, addr: nat, data: nat) {
    && (addr == 0xC002000 + 0x80 * c ==> data == ToNat(x.enable))
    && (addr == 0xC200000 + 0x1000 * c ==> data == x.threshold)
    && (addr == 0xC200004 + 0x1000 * c ==> data == x.claim)
  }

  lemma ContextView(cfg: Cfg, s: State, prio: seq<nat>, addr: nat, c: nat)
    requires cfg.n < 0x400 && cfg.ctxs <= 0x200 && Within(addr, 0xC000000, 0x400000) && c < cfg.ctxs && c < |s.ctx|
    ensures ContextShows(s.ctx[c], c, addr, ReadMux(s, PlicTarget(cfg, addr - 0xC000000), prio))
  {
    PlicDecodes(cfg, Enable(c));
    PlicDecodes(cfg, Threshold(c));
    PlicDecodes(cfg, Claim(c));
  }

  lemma PlicView(cfg: Cfg, s: State, prio: seq<nat>, addr: nat)
    requires cfg.n < 0x400 && cfg.ctxs <= 0x200 && Within(addr, 0xC000000, 0x400000)
    ensures PlicShows(cfg, s, prio, addr, ReadMux(s, PlicTarget(cfg, addr % PLIC_SPAN), prio))
  {
    PlicOffset(addr);
    var x := PlicTarget(cfg, addr - 0xC000000);
    forall i: nat | i <= cfg.n && addr == 0xC000000 + 4 * i ensures x == Priority(i) { PlicDecodes(cfg, Priority(i)); }
    PlicDecodes(cfg, Pending);
    forall c: nat | c < cfg.ctxs && c < |s.ctx| ensures ContextShows(s.ctx[c], c, addr, ReadMux(s, x, prio)) {
      ContextView(cfg, s, prio, addr, c);
    }
    if x != Unmapped { PlicDecodesOnly(cfg, addr - 0xC000000); }
  }

  /**
   * In every run, a granted load from the interrupt controller's range returns the register at its address as it was
   * in the grant cycle; the pending register shows the source lines of the cycle before.
   */
  lemma PlicLoads(cfg: Cfg, es: Stimuli, ss: SocTrace, t: nat)
    requires IsSocRun(cfg, es, ss) && cfg.n < 0x400 && cfg.ctxs <= 0x200
    requires Loads(ss(t), es(t).o, es(t).o.addr) && Within(es(t).o.addr, 0xC000000, 0x400000)
    ensures RValid(ss(t + 1)) && |ss(t).plic.ctx| == cfg.ctxs
    ensures PlicShows(cfg, ss(t).plic, es(t).prio, es(t).o.addr, RData(ss(t + 1), es(t + 1)))
    ensures t > 0 ==> ss(t).plic.pending == es(t - 1).source
  {
    AddressMap(es(t).o.addr);
    GrantOf(ss(t), es(t).o, PlicSlave);
    LoadReturnsView(cfg, es, ss, t, PlicSlave);
    PlicView(cfg, ss(t).plic, es(t).prio, es(t).o.addr);
    PlicInSoc(cfg, es, ss);
    ContextCount(PlicRun(cfg, es, ss), t);
    if t > 0 { assert SocStepsAt(cfg, es, ss, t - 1); }
  }
}
