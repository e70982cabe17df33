/** The priority cascade of one PLIC context and what it computes. */
module PlicArbiter {
  import opened Bits
  import opened Counting

  /** Everything the cascade of one context reads in a cycle; bit 0 is the reserved source. */
  datatype Request = Request(source: BitVec, enable: BitVec, prio: seq<nat>, threshold: nat, claimed: BitVec)

  ghost predicate Shaped(n: nat, q: Request) {
    |q.source| == |q.enable| == |q.prio| == |q.claimed| == n + 1
  }

  predicate Cand(q: Request, i: nat) {
    && 1 <= i < |q.source| && i < |q.enable| && i < |q.prio| && i < |q.claimed|
    && q.source[i] && q.enable[i] && q.prio[i] > q.threshold && !q.claimed[i]
  }

  /** The best (id, priority) among sources 1..i, updated only on a strictly higher priority. */
  function Best(q: Request, i: nat): (nat, nat) {
    if i == 0 then (0, 0)
    else
      var (id, prio) := Best(q, i - 1);
      if Cand(q, i) && (id == 0 || q.prio[i] > prio) then (i, q.prio[i]) else (id, prio)
  }

  /** Width of the wires that carry the running priority; the generator fixes it. */
  const PRIO_WIDTH: nat := 3

  /** What is left of a value on a wire of `width` bits. */
  function Cut(v: nat, width: nat): nat {
    v % Pow2(width)
  }

  /** The emitted cascade: the same update, but the running priority lives on `PRIO_WIDTH` bits. */
  function Running(q: Request, i: nat): (nat, nat) {
    if i == 0 then (0, 0)
    else
      var (id, prio) := Running(q, i - 1);
      if Cand(q, i) && (id == 0 || q.prio[i] > prio) then (i, Cut(q.prio[i], PRIO_WIDTH)) else (id, prio)
  }

  /** The ID that the cascade drives. */
  function Winner(n: nat, q: Request): nat {
    Running(q, n).0
  }

  /** `a` is served before `b`: higher priority, or the lower ID among equals. */
  predicate Before(prio: seq<nat>, a: nat, b: nat)
    requires a < |prio| && b < |prio|
  {
    prio[a] > prio[b] || (prio[a] == prio[b] && a < b)
  }

  /** `w` is the arbitration result among sources 1..n. */
  ghost predicate IsWinner(n: nat, q: Request, w: nat) {
    if w == 0 then forall j :: 1 <= j <= n ==> !Cand(q, j)
    else
      && w <= n && Cand(q, w)
      && forall j :: 1 <= j <= n && j != w && Cand(q, j) ==> Before(q.prio, w, j)
  }

  lemma {:induction false} BestIsWinner(q: Request, i: nat)
    ensures IsWinner(i, q, Best(q, i).0)
    ensures Best(q, i).0 != 0 ==> Best(q, i).1 == q.prio[Best(q, i).0]
  {
    if i > 0 {
      BestIsWinner(q, i - 1);
    }
  }

  /** The rule determines the result. */
  lemma {:induction false} WinnerIsUnique(n: nat, q: Request, w: nat)
    ensures IsWinner(n, q, w) <==> w == Best(q, n).0
  {
    BestIsWinner(q, n);
  }

  // ----- What the width of the running priority costs -----

  /** Whatever the priorities, the cascade drives 0 exactly when there is no candidate, and else some candidate. */
  lemma {:induction false} RunningIsCandidate(q: Request, i: nat)
    ensures var w := Running(q, i).0;
            if w == 0 then forall j :: 1 <= j <= i ==> !Cand(q, j) else w <= i && Cand(q, w)
  {
    if i > 0 {
      RunningIsCandidate(q, i - 1);
    }
  }

  /** Cutting a priority never lets a later source of no higher priority overtake it. */
  ghost predicate RunningFits(n: nat, prio: seq<nat>) {
    forall a, b :: 1 <= a < b <= n && b < |prio| && prio[b] <= prio[a] ==> prio[b] <= Cut(prio[a], PRIO_WIDTH)
  }

  lemma EightLevels(v: nat)
    ensures Cut(v, PRIO_WIDTH) == v % 8
  {
    assert Pow2(3) == 8;
  }

  lemma {:induction false} RunningIsBest(n: nat, q: Request, i: nat)
    requires RunningFits(n, q.prio) && i <= n
    ensures Running(q, i) == (Best(q, i).0, Cut(Best(q, i).1, PRIO_WIDTH))
  {
    EightLevels(Best(q, i).1);
    if i > 0 {
      RunningIsBest(n, q, i - 1);
      BestIsWinner(q, i - 1);
      EightLevels(Best(q, i - 1).1);
    }
  }

  /** Priorities of the port's width always fit. */
  lemma SmallPrioritiesFit(n: nat, prio: seq<nat>)
    requires forall i :: 1 <= i <= n && i < |prio| ==> prio[i] < 8
    ensures RunningFits(n, prio)
  {
    forall a, b | 1 <= a < b <= n && b < |prio| && prio[b] <= prio[a] ensures prio[b] <= Cut(prio[a], PRIO_WIDTH) {
      EightLevels(prio[a]);
    }
  }

  /** Sources `a` and `b` alone, at threshold 0. */
  function TwoSources(n: nat, prio: seq<nat>, a: nat, b: nat): (q: Request)
    requires |prio| == n + 1
    ensures Shaped(n, q)
  {
    var bits := seq(n + 1, i => i == a || i == b);
    Request(bits, bits, prio, 0, Zeros(n + 1))
  }

  lemma {:induction false} Overtaken(n: nat, prio: seq<nat>, a: nat, b: nat, i: nat)
    requires |prio| == n + 1 && 1 <= a < b <= n && i <= n && Cut(prio[a], PRIO_WIDTH) < prio[b] <= prio[a]
    ensures Running(TwoSources(n, prio, a, b), i).0 == if i < a then 0 else if i < b then a else b
    ensures a <= i < b ==> Running(TwoSources(n, prio, a, b), i).1 == Cut(prio[a], PRIO_WIDTH)
  {
    if i > 0 {
      Overtaken(n, prio, a, b, i - 1);
    }
  }

  /** The cascade obeys the arbitration rule on every request with these priorities if and only if they fit. */
  lemma CascadeExact(n: nat, prio: seq<nat>)
    requires |prio| == n + 1
    ensures (forall q :: Shaped(n, q) && q.prio == prio ==> IsWinner(n, q, Winner(n, q))) <==> RunningFits(n, prio)
  {
    if RunningFits(n, prio) {
      forall q | Shaped(n, q) && q.prio == prio ensures IsWinner(n, q, Winner(n, q)) {
        RunningIsBest(n, q, n);
        WinnerIsUnique(n, q, Winner(n, q));
      }
    } else {
      var a, b :| 1 <= a < b <= n && b < |prio| && prio[b] <= prio[a] && !(prio[b] <= Cut(prio[a], PRIO_WIDTH));
      var q := TwoSources(n, prio, a, b);
      Overtaken(n, prio, a, b, n);
      assert Cand(q, a) && !Before(prio, b, a);
      assert !IsWinner(n, q, Winner(n, q));
    }
  }

  /** The smallest misordering: source 1 at priority 8 loses to source 2 at priority 1. */
  lemma LargePriorityLoses()
    ensures var q := TwoSources(2, [0, 8, 1], 1, 2); Winner(2, q) == 2 && IsWinner(2, q, 1) && !IsWinner(2, q, 2)
  {
    EightLevels(8);
    Overtaken(2, [0, 8, 1], 1, 2, 2);
  }

  /** Width of the winner port, `max(1, n.bit_length())`. */
  function IdWidth(n: nat): nat {
    if BitLength(n) < 1 then 1 else BitLength(n)
  }

  /** Every ID the cascade can produce, and every ID literal of the match tables, fits the port. */
  lemma {:induction false} IdsFit(n: nat, q: Request, i: nat)
    requires i <= n
    ensures Winner(n, q) <= n
    ensures i < Pow2(IdWidth(n))
    ensures n >= 1 ==> Pow2(IdWidth(n) - 1) <= n
  {
    RunningIsCandidate(q, n);
    BitLengthBounds(n, i);
  }

  /** So an ID on the winner port, or in a match arm, is never cut. */
  lemma IdKept(n: nat, i: nat)
    requires i <= n
    ensures Cut(i, IdWidth(n)) == i
  {
    BitLengthBounds(n, i);
    BelowModulus(i, Pow2(IdWidth(n)));
  }

  /** The match tables: a single bit for an ID in 1..n, and nothing for 0 or an ID above n. */
  function IdMask(n: nat, id: nat): (m: BitVec)
    ensures |m| == n + 1
    ensures forall j :: 0 <= j <= n ==> (m[j] <==> j == id && id >= 1)
  {
    seq(n + 1, j => j == id && id >= 1)
  }

  /** `(claimed | set_mask) & ~clr_mask`, both masks taken from the claim register's value. */
  function ClaimedNext(n: nat, claimed: BitVec, claim: nat, read: bool, wrPulseD: bool): (r: BitVec)
    ensures |r| == |claimed|
    ensures forall j :: 0 <= j < |claimed| && j <= n ==>
                          r[j] == if j == claim && j >= 1 then (claimed[j] || read) && !wrPulseD else claimed[j]
  {
    And(Or(claimed, if read then IdMask(n, claim) else Zeros(n + 1)),
        Not(if wrPulseD then IdMask(n, claim) else Zeros(n + 1)))
  }
}
