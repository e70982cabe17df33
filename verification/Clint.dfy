/** The CLINT: its register block composed with the timer logic. */
module Clint {
  import opened Bits
  import opened Counting

  /** One cycle: the AXI4-Lite request signals and the timer tick. */
  datatype Input = Input(
    awValid: bool, wValid: bool, awAddr: nat, wData: Word, bReady: bool,
    arValid: bool, arAddr: nat, rReady: bool, tick: bool)

  datatype State = State(
    msip: bool, cmpLow: Word, cmpHigh: Word, timeLow: Word, timeHigh: Word,
    bresp: bool, rresp: bool, rdata: Word)

  const MSIP := 0x0
  const CMP_LOW := 0x4000
  const CMP_HIGH := 0x4004
  const TIME_LOW := 0xBFF8
  const TIME_HIGH := 0xBFFC

  function Init(): State {
    State(false, Ones(32), Ones(32), Zeros(32), Zeros(32), false, false, Zeros(32))
  }

  // ----- The specification of one clock edge -----

  predicate WrFire(s: State, i: Input) { i.awValid && i.wValid && !s.bresp }

  predicate RdFire(s: State, i: Input) { i.arValid && !s.rresp }

  /** A bus write lands on the register at `a`. */
  predicate Lands(s: State, i: Input, a: nat) { WrFire(s, i) && i.awAddr == a }

  function ReadMux(s: State, a: nat): Word {
    if a == MSIP then [s.msip] + Zeros(31)
    else if a == CMP_LOW then s.cmpLow
    else if a == CMP_HIGH then s.cmpHigh
    else if a == TIME_LOW then s.timeLow
    else if a == TIME_HIGH then s.timeHigh
    else Zeros(32)
  }

  /** The 64-bit timer and comparator, least significant bit first. */
  function Time(s: State): BitVec { s.timeLow + s.timeHigh }

  function Compare(s: State): BitVec { s.cmpLow + s.cmpHigh }

  function NextTime(s: State, tick: bool): (t: BitVec)
    ensures |t| == 64
  {
    if tick then Inc(Time(s)) else Time(s)
  }

  predicate Mtip(s: State) { ToNat(Time(s)) >= ToNat(Compare(s)) }

  function Step(s: State, i: Input): State {
    var next := NextTime(s, i.tick);
    State(
      if Lands(s, i, MSIP) then i.wData[0] else s.msip,
      if Lands(s, i, CMP_LOW) then i.wData else s.cmpLow,
      if Lands(s, i, CMP_HIGH) then i.wData else s.cmpHigh,
      if Lands(s, i, TIME_LOW) then i.wData else next[..32],
      if Lands(s, i, TIME_HIGH) then i.wData else next[32..],
      WrFire(s, i) || (s.bresp && !i.bReady),
      RdFire(s, i) || (s.rresp && !i.rReady),
      if RdFire(s, i) then ReadMux(s, i.arAddr) else s.rdata)
  }

  // ----- The clocked modules -----

  /** The register block; the timer logic drives the two `mtime` halves back into it. */
  class Timer {
    var msip: bool
    var cmpLow: Word
    var cmpHigh: Word
    var timeLow: Word
    var timeHigh: Word
    var bresp: bool
    var rresp: bool
    var rdata: Word

    function View(): State reads this {
      State(msip, cmpLow, cmpHigh, timeLow, timeHigh, bresp, rresp, rdata)
    }

    constructor ()
      ensures View() == Init()
    {
      msip, bresp, rresp := false, false, false;
      cmpLow, cmpHigh, timeLow, timeHigh, rdata := Ones(32), Ones(32), Zeros(32), Zeros(32), Zeros(32);
    }

    /** The timer logic: the values driven into the halves, and the interrupt line. */
    method Logic(tick: bool) returns (low: Word, high: Word, mtip: bool)
      ensures low + high == NextTime(View(), tick)
      ensures mtip == Mtip(View())
    {
      var mtime := timeLow + timeHigh;
      var next := if tick then Inc(mtime) else mtime;
      low, high := next[..32], next[32..];
      mtip := ToNat(mtime) >= ToNat(cmpLow + cmpHigh);
    }

    /** Which handshakes fire: a write needs address and data, and neither channel may have a response waiting. */
    method Fires(i: Input) returns (wrFire: bool, rdFire: bool)
      ensures wrFire == WrFire(View(), i) && rdFire == RdFire(View(), i)
    {
      wrFire, rdFire := i.awValid && i.wValid && !bresp, i.arValid && !rresp;
    }

    /** The two response throttles. */
    method Respond(wrFire: bool, rdFire: bool, i: Input)
      modifies this`bresp, this`rresp
      ensures bresp == (wrFire || (old(bresp) && !i.bReady)) && rresp == (rdFire || (old(rresp) && !i.rReady))
    {
      if bresp && i.bReady { bresp := false; }
      if wrFire { bresp := true; }
      if rresp && i.rReady { rresp := false; }
      if rdFire { rresp := true; }
    }

    /** The assignments of a fired bus write. */
    method Write(a: nat, data: Word)
      modifies this`msip, this`cmpLow, this`cmpHigh, this`timeLow, this`timeHigh
      ensures msip == if a == MSIP then data[0] else old(msip)
      ensures cmpLow == if a == CMP_LOW then data else old(cmpLow)
      ensures cmpHigh == if a == CMP_HIGH then data else old(cmpHigh)
      ensures timeLow == if a == TIME_LOW then data else old(timeLow)
      ensures timeHigh == if a == TIME_HIGH then data else old(timeHigh)
    {
      if a == MSIP { msip := data[0]; }
      if a == CMP_LOW { cmpLow := data; }
      if a == CMP_HIGH { cmpHigh := data; }
      if a == TIME_LOW { timeLow := data; }
      if a == TIME_HIGH { timeHigh := data; }
    }

    /** One edge: the conditions are sampled first, and the last assignment to a register wins. */
    method Clock(i: Input)
      modifies this
      ensures View() == Step(old(View()), i)
    {
      var wrFire, rdFire := Fires(i);
      var mux := ReadMux(View(), i.arAddr);
      var low, high, _ := Logic(i.tick);
      ghost var next := NextTime(View(), i.tick);
      assert low == next[..32] && high == next[32..];
      Respond(wrFire, rdFire, i);
      timeLow := low;
      timeHigh := high;
      if wrFire { Write(i.awAddr, i.wData); }
      if rdFire { rdata := mux; }
    }
  }

  // ----- Runs -----

  type Stimulus = nat -> Input

  type Trace = nat -> State

  ghost predicate StepsAt(ins: Stimulus, ss: Trace, t: nat) {
    ss(t + 1) == Step(ss(t), ins(t))
  }

  ghost predicate IsRun(ins: Stimulus, ss: Trace) {
    ss(0) == Init() && forall t: nat :: StepsAt(ins, ss, t)
  }

  predicate TimeUnwritten(ins: Stimulus, ss: Trace, t: nat) {
    !Lands(ss(t), ins(t), TIME_LOW) && !Lands(ss(t), ins(t), TIME_HIGH)
  }

  predicate CompareUnwritten(ins: Stimulus, ss: Trace, t: nat) {
    !Lands(ss(t), ins(t), CMP_LOW) && !Lands(ss(t), ins(t), CMP_HIGH)
  }

  function TimeOver(ss: Trace): nat -> nat {
    (t: nat) => ToNat(Time(ss(t)))
  }

  function CompareOver(ss: Trace): nat -> nat {
    (t: nat) => ToNat(Compare(ss(t)))
  }

  function Ticks(ins: Stimulus): nat -> bool {
    (t: nat) => ins(t).tick
  }

  // ----- Time across the two halves -----

  lemma TimeStep(s: State, i: Input)
    requires !Lands(s, i, TIME_LOW) && !Lands(s, i, TIME_HIGH)
    ensures ToNat(Time(Step(s, i))) == if i.tick then WrapNext(ToNat(Time(s)), Pow2(64)) else ToNat(Time(s))
  {
    var next := NextTime(s, i.tick);
    assert Time(Step(s, i)) == next[..32] + next[32..] == next;
    IncValue(Time(s));
    assert |Time(s)| == 64;
  }

  lemma TimeWraps(ins: Stimulus, ss: Trace, t: nat)
    requires IsRun(ins, ss) && TimeUnwritten(ins, ss, t)
    ensures Wraps(TimeOver(ss), Ticks(ins), Pow2(64), t)
  {
    assert StepsAt(ins, ss, t);
    TimeStep(ss(t), ins(t));
    assert |Time(ss(t))| == 64;
  }

  /** Over any stretch without writes to its halves, mtime is its start plus the ticks, modulo 2^64. */
  lemma TimeExact(ins: Stimulus, ss: Trace, t0: nat, t: nat)
    requires IsRun(ins, ss) && t0 <= t && forall u: nat :: t0 <= u < t ==> TimeUnwritten(ins, ss, u)
    ensures Advances(TimeOver(ss), Ticks(ins), Pow2(64), t0, t)
  {
    assert |Time(ss(t0))| == 64;
    forall u: nat | t0 <= u < t ensures Wraps(TimeOver(ss), Ticks(ins), Pow2(64), u) {
      assert TimeUnwritten(ins, ss, u);
      TimeWraps(ins, ss, u);
    }
    WrapRun(TimeOver(ss), Ticks(ins), Pow2(64), t0, t);
  }

  lemma {:induction false} CompareHolds(ins: Stimulus, ss: Trace, t0: nat, t: nat)
    requires IsRun(ins, ss) && t0 <= t && forall u: nat :: t0 <= u < t ==> CompareUnwritten(ins, ss, u)
    ensures Compare(ss(t)) == Compare(ss(t0))
  {
    if t > t0 {
      CompareHolds(ins, ss, t0, t - 1);
      assert CompareUnwritten(ins, ss, t - 1) && StepsAt(ins, ss, t - 1);
    }
  }

  /** No write to the timer or to the comparator in [t0, t). */
  ghost predicate Untouched(ins: Stimulus, ss: Trace, t0: nat, t: nat) {
    && (forall u: nat :: t0 <= u < t ==> TimeUnwritten(ins, ss, u))
    && (forall u: nat :: t0 <= u < t ==> CompareUnwritten(ins, ss, u))
  }

  lemma TimeAhead(ins: Stimulus, ss: Trace, t0: nat, t: nat, total: nat)
    requires IsRun(ins, ss) && t0 <= t && Untouched(ins, ss, t0, t)
    requires total == TimeOver(ss)(t0) + CountIn(Ticks(ins), t0, t)
    ensures total < Pow2(64) ==> TimeOver(ss)(t) == total
    ensures total == Pow2(64) ==> TimeOver(ss)(t) == 0
  {
    TimeExact(ins, ss, t0, t);
    if total < Pow2(64) { BelowModulus(total, Pow2(64)); }
    if total == Pow2(64) { DivModUnique(total, 1, 0, Pow2(64)); }
  }

  /**
   * The timer interrupt is exact. From mtime < mtimecmp, without writes to either, the line is up exactly
   * when mtimecmp - mtime ticks have passed, and stays up for as long as mtime has not wrapped.
   */
  lemma InterruptExact(ins: Stimulus, ss: Trace, t0: nat, t: nat)
    requires IsRun(ins, ss) && t0 <= t && Untouched(ins, ss, t0, t)
    requires TimeOver(ss)(t0) < CompareOver(ss)(t0)
    requires TimeOver(ss)(t0) + CountIn(Ticks(ins), t0, t) < Pow2(64)
    ensures Mtip(ss(t)) <==> CountIn(Ticks(ins), t0, t) >= CompareOver(ss)(t0) - TimeOver(ss)(t0)
  {
    TimeAhead(ins, ss, t0, t, TimeOver(ss)(t0) + CountIn(Ticks(ins), t0, t));
    CompareHolds(ins, ss, t0, t);
    assert Mtip(ss(t)) == (TimeOver(ss)(t) >= CompareOver(ss)(t));
  }

  /** At the wrap the line falls, unless mtimecmp is 0: the tick past the maximum leaves mtime at 0. */
  lemma InterruptFallsAtWrap(ins: Stimulus, ss: Trace, t0: nat, t: nat)
    requires IsRun(ins, ss) && t0 <= t && Untouched(ins, ss, t0, t)
    requires TimeOver(ss)(t0) + CountIn(Ticks(ins), t0, t) == Pow2(64)
    ensures TimeOver(ss)(t) == 0 && (Mtip(ss(t)) <==> CompareOver(ss)(t0) == 0)
  {
    TimeAhead(ins, ss, t0, t, Pow2(64));
    CompareHolds(ins, ss, t0, t);
    assert Mtip(ss(t)) == (TimeOver(ss)(t) >= CompareOver(ss)(t));
  }

  // ----- Updating the comparator without a spurious interrupt -----

  /** A write of `v` to the register at `a`, and no other write to the comparator in that cycle. */
  predicate Sets(ins: Stimulus, ss: Trace, t: nat, a: nat, v: Word) {
    Lands(ss(t), ins(t), a) && ins(t).wData == v
  }

  /** The comparator is left alone strictly between `t` and `u`. */
  ghost predicate LeftAlone(ins: Stimulus, ss: Trace, t: nat, u: nat) {
    forall k: nat :: t < k < u ==> CompareUnwritten(ins, ss, k)
  }

  /** Low half to all ones, high half, low half: at cycles a < b < c, anything else in between. */
  ghost predicate UpdatesCompare(ins: Stimulus, ss: Trace, a: nat, b: nat, c: nat, low: Word, high: Word) {
    && a < b < c
    && Sets(ins, ss, a, CMP_LOW, Ones(32)) && LeftAlone(ins, ss, a, b)
    && Sets(ins, ss, b, CMP_HIGH, high) && LeftAlone(ins, ss, b, c)
    && Sets(ins, ss, c, CMP_LOW, low)
  }

  lemma CompareAfterWrite(ins: Stimulus, ss: Trace, t: nat, u: nat)
    requires IsRun(ins, ss) && t < u && LeftAlone(ins, ss, t, u)
    ensures Compare(ss(u)) == Compare(ss(t + 1))
  {
    CompareHolds(ins, ss, t + 1, u);
  }

  lemma Halves(s: State, r: State)
    requires Compare(s) == Compare(r)
    ensures s.cmpLow == r.cmpLow && s.cmpHigh == r.cmpHigh
  {
    assert Compare(s)[..32] == s.cmpLow && Compare(s)[32..] == s.cmpHigh;
    assert Compare(r)[..32] == r.cmpLow && Compare(r)[32..] == r.cmpHigh;
  }

  /** With its low half at the maximum, a 64-bit value is at least any value with the same high half. */
  lemma OnesDominate(low: Word, high: Word)
    ensures ToNat(low + high) <= ToNat(Ones(32) + high)
  {
    ConcatValue(low, high);
    ConcatValue(Ones(32), high);
    AllOnesValue(Ones(32));
  }

  /** What the comparator holds in each phase of the update. */
  lemma UpdatePhases(ins: Stimulus, ss: Trace, a: nat, b: nat, c: nat, low: Word, high: Word, u: nat)
    requires IsRun(ins, ss) && UpdatesCompare(ins, ss, a, b, c, low, high) && a < u <= c + 1
    ensures Compare(ss(u))
         == if u <= b then Ones(32) + ss(a).cmpHigh else if u <= c then Ones(32) + high else low + high
  {
    assert StepsAt(ins, ss, a) && StepsAt(ins, ss, b) && StepsAt(ins, ss, c);
    CompareAfterWrite(ins, ss, a, if u <= b then u else b);
    if u > b {
      Halves(ss(b), ss(a + 1));
      CompareAfterWrite(ins, ss, b, if u <= c then u else c);
      if u > c { Halves(ss(c), ss(b + 1)); }
    }
  }

  /**
   * The update sequence low = -1, high, low never raises the line while mtime is below both the old and the
   * new comparator, whatever else happens in between; afterwards the comparator holds the new value.
   */
  lemma UpdateIsSilent(ins: Stimulus, ss: Trace, a: nat, b: nat, c: nat, low: Word, high: Word, u: nat)
    requires IsRun(ins, ss) && UpdatesCompare(ins, ss, a, b, c, low, high) && a <= u <= c + 1
    requires TimeOver(ss)(u) < CompareOver(ss)(a) && TimeOver(ss)(u) < ToNat(low + high)
    ensures !Mtip(ss(u))
    ensures Compare(ss(c + 1)) == low + high
  {
    UpdatePhases(ins, ss, a, b, c, low, high, c + 1);
    if u > a {
      UpdatePhases(ins, ss, a, b, c, low, high, u);
      OnesDominate(ss(a).cmpLow, ss(a).cmpHigh);
      OnesDominate(low, high);
    }
  }
}
