/** Induction over the cycles of a run, counting events, and counters that wrap. */
module Counting {

  ghost predicate KeptAt(p: nat -> bool, t: nat) {
    p(t) ==> p(t + 1)
  }

  /** What holds at the start and is kept by every cycle always holds. */
  lemma {:induction false} Always(p: nat -> bool, t: nat)
    requires p(0) && forall u: nat :: KeptAt(p, u)
    ensures p(t)
  {
    if t > 0 {
      Always(p, t - 1);
      assert KeptAt(p, t - 1);
    }
  }

  ghost predicate DecidedAt(good: nat -> bool, keeps: nat -> bool, t: nat) {
    good(t) ==> (good(t + 1) <==> keeps(t))
  }

  /** If `keeps` decides whether a good cycle is followed by a good one, all are good iff all keep. */
  lemma {:induction false} GoodUpTo(good: nat -> bool, keeps: nat -> bool, t: nat)
    requires forall u: nat :: DecidedAt(good, keeps, u)
    ensures (forall u: nat :: u <= t ==> good(u)) <==> good(0) && forall u: nat :: u < t ==> keeps(u)
  {
    if t > 0 {
      GoodUpTo(good, keeps, t - 1);
      assert DecidedAt(good, keeps, t - 1);
      assert (forall u: nat :: u <= t ==> good(u)) <==> (forall u: nat :: u <= t - 1 ==> good(u)) && good(t);
    }
  }

  /** One more, modulo `m`. */
  function WrapNext(v: nat, m: nat): nat {
    if v + 1 == m then 0 else v + 1
  }

  /** The cycles in [t0, t) in which `e` holds. */
  function CountIn(e: nat -> bool, t0: nat, t: nat): nat
    requires t0 <= t
  {
    if t == t0 then 0 else CountIn(e, t0, t - 1) + if e(t - 1) then 1 else 0
  }

  lemma {:induction false} CountAlike(e: nat -> bool, f: nat -> bool, t0: nat, t: nat)
    requires t0 <= t && forall u: nat :: e(u) == f(u)
    ensures CountIn(e, t0, t) == CountIn(f, t0, t)
  {
    if t > t0 { CountAlike(e, f, t0, t - 1); }
  }

  lemma DivModUnique(x: nat, q: nat, r: nat, m: nat)
    requires r < m && x == q * m + r
    ensures x % m == r
  {
    var e := q - x / m;
    assert e * m == x % m - r by {
      assert x == (x / m) * m + x % m;
      assert e * m == q * m - (x / m) * m;
    }
    var period: int := m;
    assert e >= 1 ==> e * period >= period;
    assert e <= -1 ==> e * period <= 0 - period;
  }

  lemma DoubledRemainder(bit: nat, rest: nat, m: nat)
    requires bit < 2 && m >= 1
    ensures (bit + 2 * rest) % (2 * m) == bit + 2 * (rest % m)
  {
    var q := rest / m;
    assert q * (2 * m) == 2 * (q * m);
    assert rest == q * m + rest % m;
    DivModUnique(bit + 2 * rest, q, bit + 2 * (rest % m), 2 * m);
  }

  lemma BelowModulus(v: nat, m: nat)
    requires v < m
    ensures v % m == v
  {
    DivModUnique(v, 0, v, m);
  }

  lemma ModNext(n: nat, m: nat)
    requires m > 0
    ensures (n + 1) % m == WrapNext(n % m, m)
  {
    var q, a := n / m, n % m;
    if a + 1 < m {
      DivModUnique(n + 1, q, a + 1, m);
    } else {
      assert (q + 1) * m == q * m + m;
      DivModUnique(n + 1, q + 1, 0, m);
    }
  }

  /** A value below `m` that wraps to its successor exactly in the enabled cycles. */
  ghost predicate Wraps(x: nat -> nat, e: nat -> bool, m: nat, t: nat) {
    x(t) < m && x(t + 1) == if e(t) then WrapNext(x(t), m) else x(t)
  }

  /** From `t0` to `t` the value moves on by the enabled cycles, modulo `m`. */
  ghost predicate Advances(x: nat -> nat, e: nat -> bool, m: nat, t0: nat, t: nat)
    requires m > 0 && t0 <= t
  {
    x(t) == (x(t0) + CountIn(e, t0, t)) % m
  }

  /** Two successive advances are one wrapping step. */
  lemma AdvancesWrap(x: nat -> nat, e: nat -> bool, m: nat, t0: nat, t: nat)
    requires m > 0 && t0 <= t && Advances(x, e, m, t0, t) && Advances(x, e, m, t0, t + 1)
    ensures x(t + 1) == if e(t) then WrapNext(x(t), m) else x(t)
  {
    ModNext(x(t0) + CountIn(e, t0, t), m);
  }

  lemma AdvancesAlike(x: nat -> nat, e: nat -> bool, f: nat -> bool, m: nat, t0: nat, t: nat)
    requires m > 0 && t0 <= t && Advances(x, e, m, t0, t) && forall u: nat :: e(u) == f(u)
    ensures Advances(x, f, m, t0, t)
  {
    CountAlike(e, f, t0, t);
  }

  /** After any stretch such a value is its start plus the enabled cycles, modulo `m`. */
  lemma {:induction false} WrapRun(x: nat -> nat, e: nat -> bool, m: nat, t0: nat, t: nat)
    requires m > 0 && t0 <= t && x(t0) < m
    requires forall u: nat :: t0 <= u < t ==> Wraps(x, e, m, u)
    ensures Advances(x, e, m, t0, t)
  {
    if t == t0 {
      DivModUnique(x(t0), 0, x(t0), m);
    } else {
      WrapRun(x, e, m, t0, t - 1);
      assert Wraps(x, e, m, t - 1);
      ModNext(x(t0) + CountIn(e, t0, t - 1), m);
    }
  }
}
