/** The order in which pending interrupts are handed out, and the independence of contexts. */
module PlicDrain {
  import opened Bits
  import opened PlicArbiter
  import opened PlicMachine
  import opened PlicSafety

  // ----- The service order -----

  ghost predicate ListsCandidates(n: nat, q: Request, order: seq<nat>) {
    forall v: nat :: v in order <==> v <= n && Cand(q, v)
  }

  /** `order` lists exactly the candidates of `q`, by priority descending and then ID ascending. */
  ghost predicate IsServiceOrder(n: nat, q: Request, order: seq<nat>) {
    && ListsCandidates(n, q, order)
    && forall a, b :: 0 <= a < b < |order| ==>
         order[a] < |q.prio| && order[b] < |q.prio| && Before(q.prio, order[a], order[b])
  }

  function Nth(order: seq<nat>, k: nat): nat {
    if k < |order| then order[k] else 0
  }

  /** `v` is one of the first `k` of `order`. */
  ghost predicate Early(order: seq<nat>, k: nat, v: nat) {
    exists a :: 0 <= a < k && a < |order| && order[a] == v
  }

  /** `q` after the first `k` of `order` have been taken into service. */
  ghost predicate AfterTaking(q: Request, now: Request, order: seq<nat>, k: nat) {
    && now.source == q.source && now.enable == q.enable && now.prio == q.prio && now.threshold == q.threshold
    && |now.claimed| == |q.claimed|
    && forall v: nat :: Bit(now.claimed, v) <==> Bit(q.claimed, v) || Early(order, k, v)
  }

  /**
   * `order` lists each candidate once, in the order in which the cascade drives them when every driven ID is taken
   * into service at once.
   */
  ghost predicate HandsOut(n: nat, q: Request, order: seq<nat>) {
    && ListsCandidates(n, q, order)
    && (forall a, b :: 0 <= a < b < |order| ==> order[a] != order[b])
    && forall now, k: nat :: AfterTaking(q, now, order, k) ==> Winner(n, now) == Nth(order, k)
  }

  lemma ServiceOrderServed(n: nat, q: Request, now: Request, order: seq<nat>, k: nat)
    requires Shaped(n, q) && RunningFits(n, q.prio) && IsServiceOrder(n, q, order) && AfterTaking(q, now, order, k)
    ensures Winner(n, now) == Nth(order, k)
  {
    forall v: nat ensures Cand(now, v) <==> Cand(q, v) && !Bit(now.claimed, v) {
      assert Bit(q.claimed, v) ==> Bit(now.claimed, v);
    }
    forall v: nat | v <= n && Cand(now, v)
      ensures exists a :: k <= a < |order| && order[a] == v
    {
      assert v in order;
      var a :| 0 <= a < |order| && order[a] == v;
      assert a >= k;
    }
    if k < |order| {
      assert order[k] in order;
      forall a | 0 <= a < k ensures order[a] != order[k] {
        assert Before(q.prio, order[a], order[k]);
      }
    }
    assert IsWinner(n, now, Nth(order, k));
    WinnerIsUnique(n, now, Nth(order, k));
    RunningIsBest(n, now, n);
  }

  /** With priorities that fit the running wire, the service order is the one that the cascade hands out. */
  lemma ServiceOrderHandsOut(n: nat, q: Request, order: seq<nat>)
    requires Shaped(n, q) && RunningFits(n, q.prio) && IsServiceOrder(n, q, order)
    ensures HandsOut(n, q, order)
  {
    forall a, b | 0 <= a < b < |order| ensures order[a] != order[b] {
      assert Before(q.prio, order[a], order[b]);
    }
    forall now, k: nat | AfterTaking(q, now, order, k) ensures Winner(n, now) == Nth(order, k) {
      ServiceOrderServed(n, q, now, order, k);
    }
  }

  ghost function Cands(n: nat, q: Request): set<nat> {
    set v: nat | v <= n && Cand(q, v)
  }

  /** Every request has a service order. */
  lemma ServiceOrderExists(n: nat, q: Request) returns (order: seq<nat>)
    requires Shaped(n, q)
    ensures IsServiceOrder(n, q, order)
    decreases Cands(n, q)
  {
    var w := Best(q, n).0;
    WinnerIsUnique(n, q, w);
    if w == 0 {
      order := [];
    } else {
      var rest := q.(claimed := q.claimed[w := true]);
      assert forall v: nat :: Cand(rest, v) <==> Cand(q, v) && v != w;
      assert w in Cands(n, q) && w !in Cands(n, rest);
      var tail := ServiceOrderExists(n, rest);
      order := [w] + tail;
      forall a, b | 0 <= a < b < |order|
        ensures order[a] < |q.prio| && order[b] < |q.prio| && Before(q.prio, order[a], order[b])
      {
        assert order[b] == tail[b - 1] && order[b] in tail;
      }
    }
  }

  lemma NothingTaken(q: Request, now: Request, order: seq<nat>, k: nat)
    requires AfterTaking(q, now, order, k) && (k == 0 || order == [])
    ensures now == q
  {
    forall i: nat | i < |q.claimed| ensures now.claimed[i] == q.claimed[i] {
      assert !Early(order, k, i);
      assert Bit(now.claimed, i) <==> Bit(q.claimed, i) || Early(order, k, i);
    }
    assert now.claimed == q.claimed;
  }

  /** `order` without its first ID serves what is left once that ID is taken. */
  lemma ServesFirst(n: nat, q: Request, rest: Request, w: nat, tail: seq<nat>, now: Request, k: nat)
    requires Shaped(n, q) && w == Winner(n, q) && w != 0 && Cand(q, w) && rest == q.(claimed := q.claimed[w := true])
    requires HandsOut(n, rest, tail) && AfterTaking(q, now, [w] + tail, k)
    ensures Winner(n, now) == Nth([w] + tail, k)
  {
    if k == 0 {
      NothingTaken(q, now, [w] + tail, k);
    } else {
      forall v: nat ensures Bit(now.claimed, v) <==> Bit(rest.claimed, v) || Early(tail, k - 1, v) {
        assert Bit(rest.claimed, v) <==> Bit(q.claimed, v) || v == w;
        EarlyTail(w, tail, k, v);
      }
      assert AfterTaking(rest, now, tail, k - 1);
    }
  }

  lemma EarlyTail(w: nat, tail: seq<nat>, k: nat, v: nat)
    requires k > 0
    ensures Early([w] + tail, k, v) <==> v == w || Early(tail, k - 1, v)
  {
    if v == w { assert ([w] + tail)[0] == v; }
    if Early(tail, k - 1, v) {
      var a :| 0 <= a < k - 1 && a < |tail| && tail[a] == v;
      assert ([w] + tail)[a + 1] == v;
    }
  }

  /** Whatever the priorities, the cascade hands out every candidate once. */
  lemma HandedOrderExists(n: nat, q: Request) returns (order: seq<nat>)
    requires Shaped(n, q)
    ensures HandsOut(n, q, order)
    decreases Cands(n, q)
  {
    var w := Winner(n, q);
    RunningIsCandidate(q, n);
    if w == 0 {
      order := [];
      forall now, k: nat | AfterTaking(q, now, order, k) ensures Winner(n, now) == 0 {
        NothingTaken(q, now, order, k);
      }
    } else {
      var rest := q.(claimed := q.claimed[w := true]);
      assert forall v: nat :: Cand(rest, v) <==> Cand(q, v) && v != w;
      assert w in Cands(n, q) && w !in Cands(n, rest);
      var tail := HandedOrderExists(n, rest);
      order := [w] + tail;
      forall a, b | 0 <= a < b < |order| ensures order[a] != order[b] {
        assert order[b] == tail[b - 1] && order[b] in tail;
      }
      forall now, k: nat | AfterTaking(q, now, order, k) ensures Winner(n, now) == Nth(order, k) {
        ServesFirst(n, q, rest, w, tail, now, k);
      }
    }
  }

  /** The request with the first `k` of `order` in service. */
  ghost function Taking(q: Request, order: seq<nat>, k: nat): Request {
    q.(claimed := seq(|q.claimed|, i requires i >= 0 => Bit(q.claimed, i) || Early(order, k, i)))
  }

  lemma TakingTakes(n: nat, q: Request, order: seq<nat>, k: nat)
    requires ListsCandidates(n, q, order)
    ensures AfterTaking(q, Taking(q, order, k), order, k)
  {
    forall v: nat ensures Bit(Taking(q, order, k).claimed, v) <==> Bit(q.claimed, v) || Early(order, k, v) {
      if Early(order, k, v) { assert v in order; }
    }
  }

  /** Only one order is handed out. */
  lemma {:induction false} HandedOrderUnique(n: nat, q: Request, order: seq<nat>, other: seq<nat>, k: nat)
    requires Shaped(n, q) && HandsOut(n, q, order) && HandsOut(n, q, other)
    ensures forall a: nat :: a < k ==> Nth(order, a) == Nth(other, a)
  {
    if k > 0 {
      HandedOrderUnique(n, q, order, other, k - 1);
      var now := Taking(q, order, k - 1);
      TakingTakes(n, q, order, k - 1);
      forall v: nat ensures Bit(now.claimed, v) <==> Bit(q.claimed, v) || Early(other, k - 1, v) {
        if Early(order, k - 1, v) { SameEarly(n, q, order, other, k - 1, v); }
        if Early(other, k - 1, v) { SameEarly(n, q, other, order, k - 1, v); }
      }
      assert AfterTaking(q, now, other, k - 1);
    }
  }

  lemma SameEarly(n: nat, q: Request, order: seq<nat>, other: seq<nat>, k: nat, v: nat)
    requires ListsCandidates(n, q, order) && Early(order, k, v)
    requires forall a: nat :: a < k ==> Nth(order, a) == Nth(other, a)
    ensures Early(other, k, v)
  {
    var a :| 0 <= a < k && a < |order| && order[a] == v;
    assert v in order;
    assert Nth(order, a) == Nth(other, a);
  }

  lemma NthIsZero(n: nat, q: Request, order: seq<nat>, k: nat)
    requires ListsCandidates(n, q, order)
    ensures Nth(order, k) == 0 <==> k >= |order|
  {
    if k < |order| { assert order[k] in order; }
  }

  lemma SameOrder(n: nat, q: Request, order: seq<nat>, other: seq<nat>)
    requires Shaped(n, q) && HandsOut(n, q, order) && HandsOut(n, q, other)
    ensures order == other
  {
    var m := |order| + |other| + 1;
    HandedOrderUnique(n, q, order, other, m);
    NthIsZero(n, q, order, |other|);
    NthIsZero(n, q, other, |order|);
    assert Nth(order, |order|) == Nth(other, |order|) && Nth(order, |other|) == Nth(other, |other|);
    forall a | 0 <= a < |order| && a < |other| ensures order[a] == other[a] {
      assert Nth(order, a) == Nth(other, a);
    }
  }

  /** The order handed out begins with the cascade's winner. */
  lemma HandsOutWinner(n: nat, q: Request, order: seq<nat>)
    requires HandsOut(n, q, order)
    ensures Winner(n, q) == Nth(order, 0)
  {
    assert AfterTaking(q, q, order, 0);
  }

  lemma FirstIsWinner(n: nat, q: Request, order: seq<nat>)
    requires Shaped(n, q) && IsServiceOrder(n, q, order)
    ensures IsWinner(n, q, Nth(order, 0))
  {
    if order != [] { assert order[0] in order; }
    forall j | 1 <= j <= n && Cand(q, j) && j != Nth(order, 0)
      ensures order != [] && Before(q.prio, order[0], j)
    {
      assert j in order;
    }
  }

  /**
   * The order in which the cascade hands out the candidates is the service order on every request with these
   * priorities if and only if the priorities fit the running wire.
   */
  lemma HandedOrderExact(n: nat, prio: seq<nat>)
    requires |prio| == n + 1
    ensures (forall q, order :: Shaped(n, q) && q.prio == prio && HandsOut(n, q, order) ==> IsServiceOrder(n, q, order))
            <==> RunningFits(n, prio)
  {
    if RunningFits(n, prio) {
      forall q, order | Shaped(n, q) && q.prio == prio && HandsOut(n, q, order) ensures IsServiceOrder(n, q, order) {
        var sorted := ServiceOrderExists(n, q);
        ServiceOrderHandsOut(n, q, sorted);
        SameOrder(n, q, order, sorted);
      }
    } else {
      CascadeExact(n, prio);
      var q :| Shaped(n, q) && q.prio == prio && !IsWinner(n, q, Winner(n, q));
      var order := HandedOrderExists(n, q);
      HandsOutWinner(n, q, order);
      if IsServiceOrder(n, q, order) { FirstIsWinner(n, q, order); }
    }
  }

  // ----- Draining -----

  ghost function RequestAt(r: Run, c: nat, t: nat): Request
    requires c < r.cfg.ctxs
  {
    CtxRequest(CtxAt(r, c, t), r.ins(t).source, r.ins(t).prio)
  }

  /** In cycle `t` the request differs from that of `t0` at most in what is in service, and nothing completes. */
  ghost predicate SteadyCycle(r: Run, c: nat, t0: nat, t: nat)
    requires c < r.cfg.ctxs
  {
    && AccessAt(r, c, t).claim.None?
    && RequestAt(r, c, t) == RequestAt(r, c, t0).(claimed := CtxAt(r, c, t).claimed)
  }

  /**
   * From cycle `t0` up to `end`, context `c` sees constant sources, priorities, enables and threshold and
   * no completions; no completion is still settling at `t0`, and the first claim read comes after `t0`.
   */
  ghost predicate Steady(r: Run, c: nat, t0: nat, end: nat)
    requires c < r.cfg.ctxs
  {
    && !Shadow(r, c, t0) && !AccessAt(r, c, t0).readClaim
    && forall t: nat :: t0 <= t < end ==> SteadyCycle(r, c, t0, t)
  }

  /** Claim reads of context `c` fired in [t0, t). */
  ghost function Reads(r: Run, c: nat, t0: nat, t: nat): nat
    requires t0 <= t
  {
    if t == t0 then 0
    else Reads(r, c, t0, t - 1) + if AccessAt(r, c, t - 1).readClaim then 1 else 0
  }

  /** After `k` reads the first `k` of the order are in service and, once no response waits, the next is shown. */
  ghost predicate Drained(r: Run, c: nat, t0: nat, t: nat, order: seq<nat>, k: nat)
    requires c < r.cfg.ctxs
  {
    && AfterTaking(RequestAt(r, c, t0),
                   RequestAt(r, c, t0).(claimed := CtxAt(r, c, t).claimed), order, k)
    && (t > t0 && !r.ss(t).rresp ==> CtxAt(r, c, t).claim == Nth(order, k))
  }

  /** A read of the next ID in order takes it; without a completion nothing else changes. */
  lemma TakeStep(n: nat, q: Request, claimed: BitVec, order: seq<nat>, k: nat, claim: nat, read: bool)
    requires Shaped(n, q) && ListsCandidates(n, q, order) && AfterTaking(q, q.(claimed := claimed), order, k)
    requires read ==> claim == Nth(order, k)
    ensures AfterTaking(q, q.(claimed := ClaimedNext(n, claimed, claim, read, false)), order, if read then k + 1 else k)
  {
    var next := ClaimedNext(n, claimed, claim, read, false);
    var j := if read then k + 1 else k;
    forall v: nat
      ensures Bit(next, v) <==> Bit(q.claimed, v) || Early(order, j, v)
    {
      assert Bit(claimed, v) <==> Bit(q.claimed, v) || Early(order, k, v);
      if read && k < |order| && v == order[k] {
        assert order[k] in order;
      }
    }
  }

  lemma SteadyStep(r: Run, c: nat, t0: nat, t: nat, end: nat)
    requires IsRun(r) && c < r.cfg.ctxs && t0 <= t < end && Steady(r, c, t0, end)
    ensures var x, y := CtxAt(r, c, t), CtxAt(r, c, t + 1);
            && !x.wrPulseD && !y.wrPulseD
            && y.claim == Winner(r.cfg.n, RequestAt(r, c, t))
            && y.claimed == ClaimedNext(r.cfg.n, x.claimed, x.claim, AccessAt(r, c, t).readClaim, false)
  {
    CtxSteps(r, c, t);
    InvHolds(r, c, t);
    assert t > t0 ==> SteadyCycle(r, c, t0, t - 1);
    assert SteadyCycle(r, c, t0, t);
  }

  lemma ReadNeedsFreeChannel(r: Run, c: nat, t: nat)
    requires IsRun(r)
    ensures AccessAt(r, c, t).readClaim ==> !r.ss(t).rresp && r.ss(t + 1).rresp
  {
    ReadChannelStep(r, t);
  }

  lemma DrainStep(r: Run, c: nat, t0: nat, t: nat, end: nat, order: seq<nat>, k: nat)
    requires IsRun(r) && c < r.cfg.ctxs && t0 <= t < end && Steady(r, c, t0, end)
    requires Shaped(r.cfg.n, RequestAt(r, c, t0)) && HandsOut(r.cfg.n, RequestAt(r, c, t0), order)
    requires Drained(r, c, t0, t, order, k)
    ensures Drained(r, c, t0, t + 1, order, if AccessAt(r, c, t).readClaim then k + 1 else k)
  {
    var q, x, read := RequestAt(r, c, t0), CtxAt(r, c, t), AccessAt(r, c, t).readClaim;
    SteadyStep(r, c, t0, t, end);
    ReadNeedsFreeChannel(r, c, t);
    assert SteadyCycle(r, c, t0, t);
    TakeStep(r.cfg.n, q, x.claimed, order, k, x.claim, read);
  }

  lemma {:induction false} DrainInvariant(
    r: Run, c: nat, t0: nat, t: nat, end: nat, order: seq<nat>)
    requires IsRun(r) && c < r.cfg.ctxs && t0 <= t <= end && Steady(r, c, t0, end)
    requires Shaped(r.cfg.n, RequestAt(r, c, t0)) && HandsOut(r.cfg.n, RequestAt(r, c, t0), order)
    ensures Drained(r, c, t0, t, order, Reads(r, c, t0, t))
  {
    if t > t0 {
      DrainInvariant(r, c, t0, t - 1, end, order);
      DrainStep(r, c, t0, t - 1, end, order, Reads(r, c, t0, t - 1));
    }
  }

  /**
   * Draining, whatever the priorities. Under steady inputs, and whatever other traffic the bus carries, the k-th
   * claim read returns the k-th candidate that the cascade hands out, every later read returns 0, and the interrupt
   * output is high exactly while candidates are left; so every candidate is returned once.
   */
  lemma DrainsHandedOrder(r: Run, c: nat, t0: nat, t: nat, end: nat, order: seq<nat>)
    requires IsRun(r) && c < r.cfg.ctxs && t0 < t < end && Steady(r, c, t0, end)
    requires Shaped(r.cfg.n, RequestAt(r, c, t0)) && HandsOut(r.cfg.n, RequestAt(r, c, t0), order)
    ensures var k := Reads(r, c, t0, t);
            && (AccessAt(r, c, t).readClaim ==> ClaimRead(r, c, t, Nth(order, k)))
            && |r.ss(t).ctx| == r.cfg.ctxs
            && (Intr(r.cfg, r.ss(t), r.ins(t), c) <==> k < |order|)
  {
    var k, q := Reads(r, c, t0, t), RequestAt(r, c, t0);
    DrainInvariant(r, c, t0, t, end, order);
    ContextCount(r, t);
    assert SteadyCycle(r, c, t0, t);
    assert Winner(r.cfg.n, RequestAt(r, c, t)) == Nth(order, k);
    if k < |order| {
      assert order[k] in order;
    }
  }

  /**
   * Drain order. When the priorities fit the running wire, as any of three bits do, the k-th claim read returns the
   * k-th candidate by priority and then ID.
   */
  lemma DrainOrder(r: Run, c: nat, t0: nat, t: nat, end: nat, order: seq<nat>)
    requires IsRun(r) && c < r.cfg.ctxs && t0 < t < end && Steady(r, c, t0, end)
    requires RunningFits(r.cfg.n, RequestAt(r, c, t0).prio)
    requires Shaped(r.cfg.n, RequestAt(r, c, t0)) && IsServiceOrder(r.cfg.n, RequestAt(r, c, t0), order)
    ensures var k := Reads(r, c, t0, t);
            && (AccessAt(r, c, t).readClaim ==> ClaimRead(r, c, t, Nth(order, k)))
            && |r.ss(t).ctx| == r.cfg.ctxs
            && (Intr(r.cfg, r.ss(t), r.ins(t), c) <==> k < |order|)
  {
    ServiceOrderHandsOut(r.cfg.n, RequestAt(r, c, t0), order);
    DrainsHandedOrder(r, c, t0, t, end, order);
  }

  // ----- Independence of contexts -----

  /** What context `c` can see of one cycle: the interrupt lines, the priorities and its own accesses. */
  ghost predicate SameCycle(a: Run, b: Run, c: nat, t: nat) {
    && a.ins(t).source == b.ins(t).source && a.ins(t).prio == b.ins(t).prio
    && AccessAt(a, c, t) == AccessAt(b, c, t)
  }

  ghost predicate SameView(a: Run, b: Run, c: nat, t: nat) {
    forall u: nat :: u < t ==> SameCycle(a, b, c, u)
  }

  lemma {:induction false} SameContext(a: Run, b: Run, c: nat, t: nat)
    requires IsRun(a) && IsRun(b) && a.cfg.n == b.cfg.n && c < a.cfg.ctxs && c < b.cfg.ctxs && SameView(a, b, c, t)
    ensures CtxAt(a, c, t) == CtxAt(b, c, t)
  {
    if t == 0 {
      CtxSteps(a, c, 0);
      CtxSteps(b, c, 0);
    } else {
      SameContext(a, b, c, t - 1);
      assert SameCycle(a, b, c, t - 1);
      SameContextStep(a, b, c, t - 1);
    }
  }

  lemma SameContextStep(a: Run, b: Run, c: nat, t: nat)
    requires IsRun(a) && IsRun(b) && a.cfg.n == b.cfg.n && c < a.cfg.ctxs && c < b.cfg.ctxs
    requires SameCycle(a, b, c, t)
    requires CtxAt(a, c, t) == CtxAt(b, c, t)
    ensures CtxAt(a, c, t + 1) == CtxAt(b, c, t + 1)
  {
    var x, acc := CtxAt(a, c, t), AccessAt(a, c, t);
    calc {
      CtxAt(a, c, t + 1);
      { CtxSteps(a, c, t); }
      CtxNext(a.cfg.n, x, a.ins(t).source, a.ins(t).prio, acc);
      { CtxSteps(b, c, t); }
      CtxAt(b, c, t + 1);
    }
  }

  /**
   * Non-interference. Two runs, even of PLICs with different numbers of contexts, that agree on sources,
   * priorities and the accesses firing on context `c` agree on its whole state and its interrupt bit,
   * whatever the other contexts and the rest of the bus do.
   */
  lemma NonInterference(a: Run, b: Run, c: nat, t: nat)
    requires IsRun(a) && IsRun(b) && a.cfg.n == b.cfg.n && c < a.cfg.ctxs && c < b.cfg.ctxs && SameView(a, b, c, t)
    requires a.ins(t).source == b.ins(t).source && a.ins(t).prio == b.ins(t).prio
    ensures |a.ss(t).ctx| == a.cfg.ctxs && |b.ss(t).ctx| == b.cfg.ctxs
    ensures a.ss(t).ctx[c] == b.ss(t).ctx[c]
    ensures Intr(a.cfg, a.ss(t), a.ins(t), c) == Intr(b.cfg, b.ss(t), b.ins(t), c)
  {
    ContextCount(a, t);
    ContextCount(b, t);
    SameContext(a, b, c, t);
  }
}
