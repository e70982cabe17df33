/** Safety of the claim/complete handshake over every run of the composed PLIC. */
module PlicSafety {
  import opened Bits
  import opened Options
  import opened PlicArbiter
  import opened PlicMachine

  // ----- What happens on the bus, cycle by cycle -----

  function CtxAt(r: Run, c: nat, t: nat): Ctx {
    if c < |r.ss(t).ctx| then r.ss(t).ctx[c] else InitCtx(r.cfg.n)
  }

  function AccessAt(r: Run, c: nat, t: nat): Access {
    AccessOf(r.ss(t), r.ins(t).bus, c)
  }

  /** A claim read fires on context `c` in cycle `t`, and the bus will return `v`. */
  ghost predicate ClaimRead(r: Run, c: nat, t: nat, v: nat)
    requires c < r.cfg.ctxs
  {
    AccessAt(r, c, t).readClaim && CtxAt(r, c, t).claim == v
  }

  /** A completion of `v` is written on context `c` in cycle `t`. */
  ghost predicate Completion(r: Run, c: nat, t: nat, v: nat) {
    var a := AccessAt(r, c, t);
    a.claim.Some? && a.claim.value % Pow2(IdWidth(r.cfg.n)) == v
  }

  /** The cycle right after a completion write: the claim register still shows the written ID. */
  ghost predicate Shadow(r: Run, c: nat, t: nat) {
    t > 0 && AccessAt(r, c, t - 1).claim.Some?
  }

  ghost predicate InService(r: Run, c: nat, t: nat, v: nat)
    requires c < r.cfg.ctxs
  {
    Bit(CtxAt(r, c, t).claimed, v)
  }

  lemma {:induction false} ContextCount(r: Run, t: nat)
    requires IsRun(r)
    ensures |r.ss(t).ctx| == r.cfg.ctxs
  {
    if t > 0 {
      ContextCount(r, t - 1);
      assert StepsAt(r, t - 1);
    }
  }

  /** A context evolves by its own rule, from its own accesses. */
  lemma CtxSteps(r: Run, c: nat, t: nat)
    requires IsRun(r) && c < r.cfg.ctxs
    ensures CtxAt(r, c, 0) == InitCtx(r.cfg.n)
    ensures CtxAt(r, c, t + 1)
         == CtxNext(r.cfg.n, CtxAt(r, c, t), r.ins(t).source, r.ins(t).prio, AccessAt(r, c, t))
  {
    ContextCount(r, t);
    assert StepsAt(r, t);
  }

  // ----- The invariant across the two modules -----

  /**
   * Per context: the bitmap keeps its shape and never holds ID 0; the delayed pulse marks the shadow
   * cycle; and with no read response outstanding and no shadow, the claim register does not show an ID
   * in service. The register is one cycle stale, so this needs the bus throttle.
   */
  ghost predicate CtxInv(n: nat, x: Ctx, rresp: bool) {
    && |x.claimed| == n + 1 && |x.enable| == n + 1
    && !x.claimed[0]
    && (!x.wrPulseD ==> x.claim <= n)
    && (!rresp && !x.wrPulseD && x.claim != 0 ==> !Bit(x.claimed, x.claim))
  }

  /** One edge keeps it: a read that sets a bit leaves a response outstanding. */
  lemma CtxInvStep(n: nat, x: Ctx, i: Input, a: Access, rresp: bool, nextRresp: bool)
    requires CtxInv(n, x, rresp) && (a.readClaim ==> nextRresp)
    ensures CtxInv(n, CtxNext(n, x, i.source, i.prio, a), nextRresp)
  {
    RunningIsCandidate(CtxRequest(x, i.source, i.prio), n);
  }

  lemma {:induction false} InvHolds(r: Run, c: nat, t: nat)
    requires IsRun(r) && c < r.cfg.ctxs
    ensures CtxInv(r.cfg.n, CtxAt(r, c, t), r.ss(t).rresp)
    ensures CtxAt(r, c, t).wrPulseD <==> Shadow(r, c, t)
  {
    if t == 0 {
      CtxSteps(r, c, 0);
    } else {
      InvHolds(r, c, t - 1);
      CtxSteps(r, c, t - 1);
      ReadChannelStep(r, t - 1);
      CtxInvStep(r.cfg.n, CtxAt(r, c, t - 1), r.ins(t - 1), AccessAt(r, c, t - 1), r.ss(t - 1).rresp, r.ss(t).rresp);
    }
  }

  lemma ServiceEdge(n: nat, x: Ctx, i: Input, a: Access, rresp: bool, v: nat)
    requires CtxInv(n, x, rresp)
    ensures Bit(CtxNext(n, x, i.source, i.prio, a).claimed, v) <==>
            && 1 <= v <= n
            && (Bit(x.claimed, v) || (a.readClaim && x.claim == v))
            && !(x.wrPulseD && x.claim == v)
  {
  }

  /** In the shadow cycle the claim register shows what the completion wrote. */
  lemma ShadowShowsCompletion(r: Run, c: nat, t: nat, v: nat)
    requires IsRun(r) && c < r.cfg.ctxs && Shadow(r, c, t)
    ensures Completion(r, c, t - 1, v) <==> CtxAt(r, c, t).claim == v
  {
    CtxSteps(r, c, t - 1);
  }

  /** Exactly how one cycle changes the in-service status of an ID. */
  lemma ServiceStep(r: Run, c: nat, t: nat, v: nat)
    requires IsRun(r) && c < r.cfg.ctxs
    ensures !InService(r, c, 0, v)
    ensures InService(r, c, t + 1, v) <==>
            && 1 <= v <= r.cfg.n
            && (InService(r, c, t, v) || ClaimRead(r, c, t, v))
            && !(Shadow(r, c, t) && Completion(r, c, t - 1, v))
  {
    CtxSteps(r, c, t);
    InvHolds(r, c, t);
    ServiceEdge(r.cfg.n, CtxAt(r, c, t), r.ins(t), AccessAt(r, c, t), r.ss(t).rresp, v);
    if Shadow(r, c, t) { ShadowShowsCompletion(r, c, t, v); }
  }

  lemma ReadChannelStep(r: Run, t: nat)
    requires IsRun(r)
    ensures var s, n, bus := r.ss(t), r.ss(t + 1), r.ins(t).bus;
            && n.rresp == (RdFire(s, bus) || (s.rresp && !bus.rReady))
            && n.rdata == if RdFire(s, bus) then ReadMux(s, bus.arAddr, r.ins(t).prio) else s.rdata
  {
    assert StepsAt(r, t);
  }

  lemma {:induction false} RdataHolds(r: Run, t: nat, u: nat)
    requires IsRun(r) && t <= u && forall k: nat :: t <= k < u ==> !RdFire(r.ss(k), r.ins(k).bus)
    ensures r.ss(u).rdata == r.ss(t).rdata
  {
    if t < u {
      RdataHolds(r, t, u - 1);
      ReadChannelStep(r, u - 1);
    }
  }

  lemma ClaimReadFires(r: Run, c: nat, t: nat, v: nat)
    requires IsRun(r) && c < r.cfg.ctxs && ClaimRead(r, c, t, v)
    ensures RdFire(r.ss(t), r.ins(t).bus)
    ensures ReadMux(r.ss(t), r.ins(t).bus.arAddr, r.ins(t).prio) == v
  {
    ContextCount(r, t);
  }

  /** The read response carries the claim register's value of the firing cycle, until the next read fires. */
  lemma ResponseCarriesClaim(r: Run, c: nat, t: nat, u: nat, v: nat)
    requires IsRun(r) && c < r.cfg.ctxs && ClaimRead(r, c, t, v) && t < u
    requires forall k: nat :: t < k < u ==> !RdFire(r.ss(k), r.ins(k).bus)
    ensures r.ss(u).rdata == v
    ensures !RdFire(r.ss(t + 1), r.ins(t + 1).bus)
  {
    ClaimReadFires(r, c, t, v);
    ReadChannelStep(r, t);
    RdataHolds(r, t + 1, u);
  }

  // ----- No double claim -----

  /** Between a cycle with `v` in service and a later one without, its completion settled. */
  lemma {:induction false} ReleasedInBetween(r: Run, c: nat, a: nat, b: nat, v: nat) returns (u: nat)
    requires IsRun(r) && c < r.cfg.ctxs && a <= b
    requires InService(r, c, a, v) && !InService(r, c, b, v)
    ensures a <= u < b && Shadow(r, c, u) && Completion(r, c, u - 1, v)
  {
    ServiceStep(r, c, b - 1, v);
    if InService(r, c, b - 1, v) {
      InvHolds(r, c, b - 1);
      u := b - 1;
    } else {
      u := ReleasedInBetween(r, c, a, b - 1, v);
    }
  }

  /** A claim read outside the shadow cycle returns an ID that was not in service, and takes it. */
  lemma ClaimTakes(r: Run, c: nat, t: nat, v: nat)
    requires IsRun(r) && c < r.cfg.ctxs && ClaimRead(r, c, t, v) && v != 0 && !Shadow(r, c, t)
    ensures 1 <= v <= r.cfg.n
    ensures !InService(r, c, t, v) && InService(r, c, t + 1, v)
    ensures t > 0 && !InService(r, c, t - 1, v)
  {
    InvHolds(r, c, t);
    ServiceStep(r, c, t, v);
    CtxSteps(r, c, t);
    assert t > 0;
    CtxSteps(r, c, t - 1);
    InvHolds(r, c, t - 1);
    var x, i := CtxAt(r, c, t - 1), r.ins(t - 1);
    RunningIsCandidate(CtxRequest(x, i.source, i.prio), r.cfg.n);
  }

  lemma CompletedBetween(r: Run, c: nat, t1: nat, t2: nat, v: nat) returns (w: nat)
    requires IsRun(r) && c < r.cfg.ctxs && t1 < t2 && v != 0
    requires ClaimRead(r, c, t1, v) && !Shadow(r, c, t1)
    requires ClaimRead(r, c, t2, v) && !Shadow(r, c, t2)
    ensures t1 <= w && w + 3 <= t2 && Completion(r, c, w, v)
  {
    ClaimTakes(r, c, t1, v);
    ClaimTakes(r, c, t2, v);
    var u := ReleasedInBetween(r, c, t1 + 1, t2 - 1, v);
    w := u - 1;
  }

  /**
   * No double claim. In every run, for any sources, contexts and priorities: if a claim read outside the shadow
   * and a later claim read of the same context return the same ID, that ID was completed on that context in
   * between; at least three cycles before the second read, unless that one falls into the completion's shadow.
   */
  lemma NoDoubleClaim(r: Run, c: nat, t1: nat, t2: nat, v: nat) returns (w: nat)
    requires IsRun(r) && c < r.cfg.ctxs && t1 < t2 && v != 0
    requires ClaimRead(r, c, t1, v) && !Shadow(r, c, t1)
    requires ClaimRead(r, c, t2, v)
    ensures t1 <= w < t2 && Completion(r, c, w, v)
    ensures !Shadow(r, c, t2) ==> w + 3 <= t2
  {
    if Shadow(r, c, t2) {
      ShadowShowsCompletion(r, c, t2, v);
      w := t2 - 1;
    } else {
      w := CompletedBetween(r, c, t1, t2, v);
    }
  }

  /**
   * Inside the shadow cycle: the read returns the ID just written, changes no bitmap bit, and leaves
   * that ID out of service. So the hypothesis above is exact: a read that returns an implemented ID
   * takes it if and only if it is outside the shadow.
   */
  lemma ShadowReadTakesNothing(r: Run, c: nat, t: nat, v: nat)
    requires IsRun(r) && c < r.cfg.ctxs && ClaimRead(r, c, t, v)
    ensures Shadow(r, c, t) ==>
              && Completion(r, c, t - 1, v)
              && forall k: nat :: InService(r, c, t + 1, k) <==> InService(r, c, t, k) && k != v
    ensures 1 <= v <= r.cfg.n ==> (InService(r, c, t + 1, v) <==> !Shadow(r, c, t))
  {
    InvHolds(r, c, t);
    ServiceStep(r, c, t, v);
    if Shadow(r, c, t) {
      CtxSteps(r, c, t - 1);
      forall k: nat
        ensures InService(r, c, t + 1, k) <==> InService(r, c, t, k) && k != v
      {
        ServiceStep(r, c, t, k);
      }
    }
  }

  /**
   * A completion releases its ID, and no other: once a word whose ID bits are `v` has been written to the claim
   * register, the next cycle's edge takes `v` out of service and leaves every other ID as it is.
   */
  lemma CompletionReleases(r: Run, c: nat, t: nat, word: nat, v: nat, k: nat)
    requires IsRun(r) && c < r.cfg.ctxs && AccessAt(r, c, t).claim == Some(word)
    requires word % Pow2(IdWidth(r.cfg.n)) == v
    ensures InService(r, c, t + 2, k) <==> InService(r, c, t + 1, k) && k != v
  {
    assert Shadow(r, c, t + 1) && Completion(r, c, t, v);
    ShadowShowsCompletion(r, c, t + 1, v);
    ServiceStep(r, c, t + 1, k);
    InRange(r, c, t + 1, k);
  }

  /** In particular, writing back the ID of an implemented source ends its service. */
  lemma CompletionOfId(r: Run, c: nat, t: nat, v: nat, k: nat)
    requires IsRun(r) && c < r.cfg.ctxs && 1 <= v <= r.cfg.n && AccessAt(r, c, t).claim == Some(v)
    ensures InService(r, c, t + 2, k) <==> InService(r, c, t + 1, k) && k != v
  {
    IdKept(r.cfg.n, v);
    CompletionReleases(r, c, t, v, v, k);
  }

  // ----- The in-service ledger -----

  /** The settled events: a claim outside the shadow, and a completion one cycle after its write. */
  ghost predicate Claimed(r: Run, c: nat, t: nat, v: nat)
    requires c < r.cfg.ctxs
  {
    v != 0 && ClaimRead(r, c, t, v) && !Shadow(r, c, t)
  }

  ghost predicate Completed(r: Run, c: nat, t: nat, v: nat) {
    Shadow(r, c, t) && Completion(r, c, t - 1, v)
  }

  ghost predicate LatestIsClaim(r: Run, c: nat, t: nat, v: nat, a: nat)
    requires c < r.cfg.ctxs
  {
    a < t && Claimed(r, c, a, v) && forall u: nat :: a < u < t ==> !Completed(r, c, u, v)
  }

  /** The same change of status, told by settled events. */
  lemma LedgerStep(r: Run, c: nat, t: nat, v: nat)
    requires IsRun(r) && c < r.cfg.ctxs
    ensures InService(r, c, t + 1, v) <==>
            Claimed(r, c, t, v) || (InService(r, c, t, v) && !Completed(r, c, t, v))
    ensures Claimed(r, c, t, v) ==> !InService(r, c, t, v)
  {
    ServiceStep(r, c, t, v);
    if ClaimRead(r, c, t, v) {
      ShadowReadTakesNothing(r, c, t, v);
      if v != 0 && !Shadow(r, c, t) {
        ClaimTakes(r, c, t, v);
      }
    }
    if InService(r, c, t, v) {
      InRange(r, c, t, v);
    }
  }

  lemma InRange(r: Run, c: nat, t: nat, v: nat)
    requires IsRun(r) && c < r.cfg.ctxs
    ensures InService(r, c, t, v) ==> 1 <= v <= r.cfg.n
  {
    InvHolds(r, c, t);
  }

  /** A status set by one event and reset by another shows which came last. */
  lemma {:induction false} LatestEvent(status: nat -> bool, set_: nat -> bool, reset_: nat -> bool, t: nat)
    requires !status(0)
    requires forall k: nat :: status(k + 1) <==> set_(k) || (status(k) && !reset_(k))
    ensures status(t) <==> exists a: nat :: a < t && set_(a) && forall u: nat :: a < u < t ==> !reset_(u)
  {
    if t > 0 {
      LatestEvent(status, set_, reset_, t - 1);
      assert status(t - 1 + 1) <==> set_(t - 1) || (status(t - 1) && !reset_(t - 1));
      if status(t) && !set_(t - 1) {
        var a: nat :| a < t - 1 && set_(a) && forall u: nat :: a < u < t - 1 ==> !reset_(u);
        assert set_(a) && forall u: nat :: a < u < t ==> !reset_(u);
      }
    }
  }

  /** In every reachable state the bitmap is the set of IDs whose latest settled event was a claim. */
  lemma Ledger(r: Run, c: nat, t: nat, v: nat)
    requires IsRun(r) && c < r.cfg.ctxs
    ensures InService(r, c, t, v) <==> exists a: nat :: LatestIsClaim(r, c, t, v, a)
  {
    var status := (k: nat) => InService(r, c, k, v);
    var set_ := (k: nat) => Claimed(r, c, k, v);
    var reset_ := (k: nat) => Completed(r, c, k, v);
    forall k: nat ensures status(k + 1) <==> set_(k) || (status(k) && !reset_(k)) {
      LedgerStep(r, c, k, v);
    }
    ServiceStep(r, c, 0, v);
    LatestEvent(status, set_, reset_, t);
    forall a: nat
      ensures LatestIsClaim(r, c, t, v, a) <==> a < t && set_(a) && forall u: nat :: a < u < t ==> !reset_(u)
    {
      assert forall u: nat :: reset_(u) <==> Completed(r, c, u, v);
    }
  }

  ghost function ServiceSet(r: Run, c: nat, t: nat): set<nat>
    requires c < r.cfg.ctxs
  {
    set v: nat | v <= r.cfg.n && InService(r, c, t, v)
  }

  /** Claims that took an ID before cycle `t`. */
  ghost function Claims(r: Run, c: nat, t: nat): nat
    requires c < r.cfg.ctxs
  {
    if t == 0 then 0
    else Claims(r, c, t - 1) + if Claimed(r, c, t - 1, CtxAt(r, c, t - 1).claim) then 1 else 0
  }

  /** Completions that settled before cycle `t` on an ID in service. */
  ghost function Completions(r: Run, c: nat, t: nat): nat
    requires c < r.cfg.ctxs
  {
    if t == 0 then 0
    else
      var v := CtxAt(r, c, t - 1).claim;
      Completions(r, c, t - 1)
      + if Completed(r, c, t - 1, v) && v in ServiceSet(r, c, t - 1) then 1 else 0
  }

  /** Only the ID in the claim register can be claimed or completed. */
  lemma EventIsClaimRegister(r: Run, c: nat, t: nat, k: nat)
    requires IsRun(r) && c < r.cfg.ctxs
    ensures Claimed(r, c, t, k) || Completed(r, c, t, k) ==> k == CtxAt(r, c, t).claim
  {
    if Shadow(r, c, t) { CtxSteps(r, c, t - 1); }
  }

  lemma ServiceSetStep(r: Run, c: nat, t: nat, v: nat)
    requires IsRun(r) && c < r.cfg.ctxs && v == CtxAt(r, c, t).claim
    ensures Claimed(r, c, t, v) ==>
              && v !in ServiceSet(r, c, t) && !Completed(r, c, t, v)
              && ServiceSet(r, c, t + 1) == ServiceSet(r, c, t) + {v}
    ensures !Claimed(r, c, t, v) && Completed(r, c, t, v) ==>
              ServiceSet(r, c, t + 1) == ServiceSet(r, c, t) - {v}
    ensures !Claimed(r, c, t, v) && !Completed(r, c, t, v) ==>
              ServiceSet(r, c, t + 1) == ServiceSet(r, c, t)
  {
    LedgerStep(r, c, t, v);
    InRange(r, c, t + 1, v);
    forall k: nat
      ensures k in ServiceSet(r, c, t + 1) <==>
              (k == v && Claimed(r, c, t, v)) ||
              (k in ServiceSet(r, c, t) && !(k == v && Completed(r, c, t, v)))
    {
      LedgerStep(r, c, t, k);
      EventIsClaimRegister(r, c, t, k);
    }
  }

  lemma BalanceStep(r: Run, c: nat, t: nat)
    requires IsRun(r) && c < r.cfg.ctxs
    ensures |ServiceSet(r, c, t + 1)| - |ServiceSet(r, c, t)|
         == (Claims(r, c, t + 1) - Claims(r, c, t))
          - (Completions(r, c, t + 1) - Completions(r, c, t))
  {
    var v := CtxAt(r, c, t).claim;
    ServiceSetStep(r, c, t, v);
    var now := ServiceSet(r, c, t);
    assert v !in now ==> |now + {v}| == |now| + 1 && now - {v} == now;
    assert v in now ==> |now - {v}| == |now| - 1;
  }

  lemma NoneInServiceAtReset(r: Run, c: nat)
    requires IsRun(r) && c < r.cfg.ctxs
    ensures ServiceSet(r, c, 0) == {}
  {
    forall v: nat ensures v !in ServiceSet(r, c, 0) {
      ServiceStep(r, c, 0, v);
    }
  }

  /** The IDs in service, none of them 0 or above n, number the claims minus the effective completions. */
  lemma {:induction false} ServiceBalance(r: Run, c: nat, t: nat)
    requires IsRun(r) && c < r.cfg.ctxs
    ensures forall v: nat :: InService(r, c, t, v) <==> v in ServiceSet(r, c, t)
    ensures forall v: nat :: v in ServiceSet(r, c, t) ==> 1 <= v <= r.cfg.n
    ensures |ServiceSet(r, c, t)| == Claims(r, c, t) - Completions(r, c, t)
  {
    forall v: nat ensures InService(r, c, t, v) ==> 1 <= v <= r.cfg.n { InRange(r, c, t, v); }
    if t == 0 {
      NoneInServiceAtReset(r, c);
    } else {
      ServiceBalance(r, c, t - 1);
      BalanceStep(r, c, t - 1);
    }
  }
}
