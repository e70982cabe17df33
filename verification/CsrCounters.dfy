/** Split counters: two half-width fields that count as one number. */
module CsrCounters {
  import opened Bits
  import opened Options
  import opened Counting
  import opened CsrDesign
  import opened CsrLayout
  import opened CsrEmitter
  import opened CsrCorrect
  import opened CsrLaws

  datatype Pair = Pair(lowReg: Reg, low: Field, highReg: Reg, high: Field)

  /** A linked pair of halves in an accepted design. */
  ghost predicate Linked(d: Design, p: Pair) {
    && Named(d) && Validate(d).None?
    && p.lowReg in d.regs && p.low in p.lowReg.fields && p.low.incrementWhen.Some?
    && p.highReg in d.regs && p.high in p.highReg.fields
    && p.high.incrementWhen.None? && p.high.incrementHighOf == Some(p.lowReg.name)
  }

  lemma LowCounter(d: Design, p: Pair)
    requires Linked(d, p)
    ensures FindReg(d.regs, p.lowReg.name) == Some(p.lowReg) && CounterFields(p.lowReg.fields) == [p.low]
    ensures p.low.Width() == p.high.Width() >= 1 && !p.low.hwWritable && !p.high.hwWritable
  {
    ValidateExact(d);
    assert AcceptedField(d, p.high) && AcceptedField(d, p.low);
    FindRegByName(d.regs, p.lowReg);
    CounterFieldsFound(p.lowReg.fields, p.low);
  }

  lemma LinkedHalves(d: Design, p: Pair)
    requires Linked(d, p)
    ensures LowHalf(d, p.high) == Some((p.lowReg, p.low))
    ensures p.low.Width() == p.high.Width() >= 1
    ensures !p.low.hwWritable && !p.high.hwWritable && Ref(p.lowReg, p.low) != Ref(p.highReg, p.high)
  {
    LowCounter(d, p);
    assert Ref(p.lowReg, p.low) != Ref(p.highReg, p.high) by {
      if Ref(p.lowReg, p.low) == Ref(p.highReg, p.high) { SameRef(d, p.lowReg, p.low, p.highReg, p.high); }
    }
  }

  /** The value of `{high, low}`. */
  function Joint(st: Store, p: Pair): nat {
    ToNat(Stored(st, p.lowReg, p.low) + Stored(st, p.highReg, p.high))
  }

  predicate Enabled(i: Inputs, p: Pair) {
    p.low.incrementWhen.Some? && i.ports(p.low.incrementWhen.value)
  }

  /** Both halves have a location of their width. */
  ghost predicate HalvesSized(st: Store, p: Pair) {
    && Ref(p.lowReg, p.low) in st && |Stored(st, p.lowReg, p.low)| == p.low.Width()
    && Ref(p.highReg, p.high) in st && |Stored(st, p.highReg, p.high)| == p.high.Width()
  }

  /** A cycle in which no bus write lands on either half. */
  ghost predicate Undisturbed(st: Store, i: Inputs, p: Pair) {
    HalvesSized(st, p) && !Fires(i, p.lowReg) && !Fires(i, p.highReg)
  }

  ghost predicate CountsAsOne(d: Design, st: Store, i: Inputs, p: Pair) {
    Joint(Clocked(SeqBlock(d), st, i), p)
    == if Enabled(i, p) then WrapNext(Joint(st, p), Pow2(2 * p.low.Width())) else Joint(st, p)
  }

  /** Each half's own exact rule without a bus write. */
  lemma HalvesStep(d: Design, st: Store, i: Inputs, p: Pair)
    requires Linked(d, p) && Undisturbed(st, i, p)
    ensures var low, high, w := Stored(st, p.lowReg, p.low), Stored(st, p.highReg, p.high), p.low.Width();
            var next := Clocked(SeqBlock(d), st, i);
            && |low| == |high| == w
            && Stored(next, p.lowReg, p.low) == (if Enabled(i, p) then Inc(low) else low)
            && Stored(next, p.highReg, p.high)
               == if Enabled(i, p) && low == FromNat(CarryConstant(w), w) then Inc(high) else high
  {
    LinkedHalves(d, p);
    EmittedFieldCorrect(d, st, i, p.lowReg, p.low);
    EmittedFieldCorrect(d, st, i, p.highReg, p.high);
  }

  /** The emitted carry literal is all ones exactly for widths divisible by four. */
  lemma CarryConstantIsAllOnes(w: nat)
    requires w >= 1
    ensures CarryConstant(w) < Pow2(w)
    ensures CarryConstant(w) == Pow2(w) - 1 <==> w % 4 == 0
    ensures ToNat(FromNat(CarryConstant(w), w)) == CarryConstant(w)
  {
    CarryConstantBound(w, w / 4);
    FromNatSmall(CarryConstant(w), w);
  }

  lemma CarryConstantBound(w: nat, digits: nat)
    requires w >= 1 && digits == w / 4
    ensures Pow2(4 * digits) <= Pow2(w)
    ensures Pow2(4 * digits) == Pow2(w) <==> w % 4 == 0
  {
    assert w == 4 * digits + w % 4;
    if w % 4 != 0 { Pow2Mono(4 * digits, w); }
  }

  /** So the emitted comparison is the right one exactly for those widths. */
  lemma CarryComparison(low: BitVec)
    requires |low| >= 1 && |low| % 4 == 0
    ensures low == FromNat(CarryConstant(|low|), |low|) <==> AllOnes(low)
  {
    CarryConstantIsAllOnes(|low|);
    AllOnesValue(low);
    if AllOnes(low) { ToNatInjective(low, FromNat(CarryConstant(|low|), |low|)); }
  }

  /** Counting each half by its rule is counting the joint number, when the width is a multiple of 4. */
  lemma HalvesCountAsOne(low: BitVec, high: BitVec, enabled: bool)
    requires |low| == |high| >= 1 && |low| % 4 == 0
    ensures ToNat((if enabled then Inc(low) else low)
                  + if enabled && low == FromNat(CarryConstant(|low|), |low|) then Inc(high) else high)
         == if enabled then WrapNext(ToNat(low + high), Pow2(2 * |low|)) else ToNat(low + high)
  {
    CarryComparison(low);
    IncConcat(low, high);
    IncValue(low + high);
    assert |low + high| == 2 * |low|;
  }

  lemma JointStep(d: Design, st: Store, i: Inputs, p: Pair)
    requires Linked(d, p) && Undisturbed(st, i, p) && p.low.Width() % 4 == 0
    ensures CountsAsOne(d, st, i, p)
  {
    LinkedHalves(d, p);
    HalvesStep(d, st, i, p);
    HalvesCountAsOne(Stored(st, p.lowReg, p.low), Stored(st, p.highReg, p.high), Enabled(i, p));
  }

  lemma SameRef(d: Design, r: Reg, f: Field, q: Reg, g: Field)
    requires DistinctNames(d.regs) && r in d.regs && f in r.fields && q in d.regs && g in q.fields
    requires Ref(r, f) == Ref(q, g)
    ensures r == q && f == g
  {
    FindRegByName(d.regs, r);
    FindRegByName(d.regs, q);
    var j :| 0 <= j < |r.fields| && r.fields[j] == f;
    var k :| 0 <= k < |r.fields| && r.fields[k] == g;
  }

  predicate WriteFree(ins: Drives, p: Pair, t: nat) {
    !Fires(ins(t), p.lowReg) && !Fires(ins(t), p.highReg)
  }

  ghost predicate WriteFreeIn(ins: Drives, p: Pair, t0: nat, t: nat) {
    forall u: nat :: t0 <= u < t ==> WriteFree(ins, p, u)
  }

  function EnabledIn(ins: Drives, p: Pair): nat -> bool {
    (t: nat) => Enabled(ins(t), p)
  }

  lemma JointBound(d: Design, st: Store, p: Pair)
    requires Linked(d, p) && HalvesSized(st, p)
    ensures Joint(st, p) < Pow2(2 * p.low.Width())
  {
    LinkedHalves(d, p);
  }

  lemma SizedHalves(d: Design, st: Store, p: Pair)
    requires Linked(d, p) && Sized(d.regs, st)
    ensures HalvesSized(st, p)
  {
  }

  function JointOver(ss: Stores, p: Pair): nat -> nat {
    (t: nat) => Joint(ss(t), p)
  }

  lemma HalvesSizedStep(d: Design, st: Store, i: Inputs, p: Pair)
    requires Linked(d, p) && HalvesSized(st, p)
    ensures HalvesSized(Clocked(SeqBlock(d), st, i), p)
  {
    LinkedHalves(d, p);
    EmittedFieldCorrect(d, st, i, p.lowReg, p.low);
    EmittedFieldCorrect(d, st, i, p.highReg, p.high);
    FieldNextWidth(d, st, i, p.lowReg, p.low);
    FieldNextWidth(d, st, i, p.highReg, p.high);
  }

  /** In every run the halves keep their width, whatever hardware drives elsewhere. */
  lemma HalvesSizedAlways(d: Design, ins: Drives, ss: Stores, p: Pair, t: nat)
    requires Linked(d, p) && IsRun(d, ins, ss)
    ensures HalvesSized(ss(t), p)
  {
    var sized := (u: nat) => HalvesSized(ss(u), p);
    ResetSized(d);
    SizedHalves(d, ResetStore(d), p);
    forall u: nat ensures KeptAt(sized, u) {
      assert StepsAt(d, ins, ss, u);
      if HalvesSized(ss(u), p) { HalvesSizedStep(d, ss(u), ins(u), p); }
    }
    Always(sized, t);
  }

  lemma JointWraps(d: Design, ins: Drives, ss: Stores, p: Pair, t: nat)
    requires Linked(d, p) && IsRun(d, ins, ss) && p.low.Width() % 4 == 0
    ensures JointOver(ss, p)(t) < Pow2(2 * p.low.Width())
    ensures WriteFree(ins, p, t) ==> Wraps(JointOver(ss, p), EnabledIn(ins, p), Pow2(2 * p.low.Width()), t)
  {
    HalvesSizedAlways(d, ins, ss, p, t);
    JointBound(d, ss(t), p);
    if WriteFree(ins, p, t) { JointStep(d, ss(t), ins(t), p); }
    assert StepsAt(d, ins, ss, t);
  }

  /** Over any stretch without writes the joint value is its start plus the enabled cycles, modulo 2^(2W). */
  lemma JointRun(d: Design, ins: Drives, ss: Stores, p: Pair, t0: nat, t: nat)
    requires Linked(d, p) && IsRun(d, ins, ss) && p.low.Width() % 4 == 0
    requires t0 <= t && WriteFreeIn(ins, p, t0, t)
    ensures Advances(JointOver(ss, p), EnabledIn(ins, p), Pow2(2 * p.low.Width()), t0, t)
  {
    JointWraps(d, ins, ss, p, t0);
    forall u: nat | t0 <= u < t
      ensures Wraps(JointOver(ss, p), EnabledIn(ins, p), Pow2(2 * p.low.Width()), u)
    {
      assert WriteFree(ins, p, u);
      JointWraps(d, ins, ss, p, u);
    }
    WrapRun(JointOver(ss, p), EnabledIn(ins, p), Pow2(2 * p.low.Width()), t0, t);
  }

  // ----- Other widths: a run in which the high half moves early -----

  function IdleInputs(): Inputs {
    Inputs(false, false, 0, 0, [], (s: string) => true, (s: string) => [])
  }

  /** The bus idle and every counter enabled, from reset. */
  function IdleAt(d: Design, t: nat): Store {
    if t == 0 then ResetStore(d) else Clocked(SeqBlock(d), IdleAt(d, t - 1), IdleInputs())
  }

  function IdleDrives(): Drives {
    (t: nat) => IdleInputs()
  }

  function IdleRun(d: Design): Stores {
    (t: nat) => IdleAt(d, t)
  }

  lemma IdleRunRuns(d: Design)
    ensures IsRun(d, IdleDrives(), IdleRun(d))
  {
    forall t: nat ensures StepsAt(d, IdleDrives(), IdleRun(d), t) {
      assert IdleAt(d, t + 1) == Clocked(SeqBlock(d), IdleAt(d, t), IdleInputs());
    }
  }

  function LowOver(ss: Stores, p: Pair): nat -> nat {
    (t: nat) => ToNat(Stored(ss(t), p.lowReg, p.low))
  }

  function EveryCycle(): nat -> bool {
    (t: nat) => true
  }

  lemma {:induction false} CountEvery(t: nat)
    ensures CountIn(EveryCycle(), 0, t) == t
  {
    if t > 0 { CountEvery(t - 1); }
  }

  lemma LowWraps(d: Design, ss: Stores, p: Pair, t: nat)
    requires Linked(d, p) && IsRun(d, IdleDrives(), ss)
    ensures Wraps(LowOver(ss, p), EveryCycle(), Pow2(p.low.Width()), t)
  {
    HalvesSizedAlways(d, IdleDrives(), ss, p, t);
    HalvesStep(d, ss(t), IdleDrives()(t), p);
    IncValue(Stored(ss(t), p.lowReg, p.low));
    assert StepsAt(d, IdleDrives(), ss, t);
  }

  lemma LowRuns(d: Design, ss: Stores, p: Pair, t: nat)
    requires Linked(d, p) && IsRun(d, IdleDrives(), ss)
    ensures LowOver(ss, p)(0) < Pow2(p.low.Width())
    ensures LowOver(ss, p)(t) == (LowOver(ss, p)(0) + t) % Pow2(p.low.Width())
  {
    LowWraps(d, ss, p, 0);
    forall u: nat | 0 <= u < t ensures Wraps(LowOver(ss, p), EveryCycle(), Pow2(p.low.Width()), u) {
      LowWraps(d, ss, p, u);
    }
    WrapRun(LowOver(ss, p), EveryCycle(), Pow2(p.low.Width()), 0, t);
    CountEvery(t);
  }

  /** The idle run reaches every value of the low half. */
  lemma LowReaches(d: Design, ss: Stores, p: Pair, v: nat) returns (t: nat)
    requires Linked(d, p) && IsRun(d, IdleDrives(), ss) && v < Pow2(p.low.Width())
    ensures LowOver(ss, p)(t) == v
  {
    var start, m := LowOver(ss, p)(0), Pow2(p.low.Width());
    LowRuns(d, ss, p, 0);
    if start <= v {
      t := v - start;
      BelowModulus(v, m);
    } else {
      t := v + m - start;
      DivModUnique(v + m, 1, v, m);
    }
    LowRuns(d, ss, p, t);
  }

  /** At the literal the high half moves although the low half is not all ones, so the pair skips ahead. */
  lemma EarlyCarry(low: BitVec, high: BitVec)
    requires |low| == |high| >= 1 && |low| % 4 != 0 && ToNat(low) == CarryConstant(|low|)
    ensures ToNat(Inc(low) + Inc(high)) != WrapNext(ToNat(low + high), Pow2(2 * |low|))
  {
    CarryConstantIsAllOnes(|low|);
    AllOnesValue(low);
    IncConcat(low, high);
    IncValue(low + high);
    assert |low + high| == 2 * |low|;
    assert Inc(high)[0] != high[0];
    assert (Inc(low) + Inc(high))[|low|] != (Inc(low) + high)[|low|];
    if ToNat(Inc(low) + Inc(high)) == ToNat(Inc(low) + high) {
      ToNatInjective(Inc(low) + Inc(high), Inc(low) + high);
    }
  }

  lemma EarlyCarryStep(d: Design, st: Store, i: Inputs, p: Pair)
    requires Linked(d, p) && p.low.Width() % 4 != 0 && Undisturbed(st, i, p) && Enabled(i, p)
    requires ToNat(Stored(st, p.lowReg, p.low)) == CarryConstant(p.low.Width())
    ensures !CountsAsOne(d, st, i, p)
  {
    var low, w := Stored(st, p.lowReg, p.low), p.low.Width();
    LinkedHalves(d, p);
    CarryConstantIsAllOnes(w);
    ToNatInjective(low, FromNat(CarryConstant(w), w));
    HalvesStep(d, st, i, p);
    EarlyCarry(low, Stored(st, p.highReg, p.high));
  }

  /** A cycle of the idle run in which the pair does not count as one number. */
  lemma MissedCarry(d: Design, p: Pair) returns (t: nat)
    requires Linked(d, p) && p.low.Width() % 4 != 0
    ensures IsRun(d, IdleDrives(), IdleRun(d)) && Undisturbed(IdleRun(d)(t), IdleInputs(), p)
    ensures !CountsAsOne(d, IdleRun(d)(t), IdleInputs(), p)
  {
    IdleRunRuns(d);
    LinkedHalves(d, p);
    CarryConstantIsAllOnes(p.low.Width());
    t := LowReaches(d, IdleRun(d), p, CarryConstant(p.low.Width()));
    HalvesSizedAlways(d, IdleDrives(), IdleRun(d), p, t);
    EarlyCarryStep(d, IdleRun(d)(t), IdleInputs(), p);
  }

  /** The two halves count as one number in every undisturbed cycle if and only if the half width is a multiple of 4. */
  lemma CountsAsOneIff(d: Design, p: Pair)
    requires Linked(d, p)
    ensures (forall st, i :: Undisturbed(st, i, p) ==> CountsAsOne(d, st, i, p)) <==> p.low.Width() % 4 == 0
  {
    if p.low.Width() % 4 == 0 {
      forall st, i | Undisturbed(st, i, p) ensures CountsAsOne(d, st, i, p) {
        JointStep(d, st, i, p);
      }
    } else {
      var t := MissedCarry(d, p);
    }
  }

  /** From reset to `t` the joint value advanced by the enabled cycles. */
  ghost predicate JointAdvances(ins: Drives, ss: Stores, p: Pair, t: nat) {
    Advances(JointOver(ss, p), EnabledIn(ins, p), Pow2(2 * p.low.Width()), 0, t)
  }

  /** Two successive advances are one wrapping step. */
  lemma AdvancesStep(d: Design, ins: Drives, ss: Stores, p: Pair, t: nat)
    requires IsRun(d, ins, ss) && JointAdvances(ins, ss, p, t) && JointAdvances(ins, ss, p, t + 1)
    ensures CountsAsOne(d, ss(t), ins(t), p)
  {
    assert StepsAt(d, ins, ss, t);
    AdvancesWrap(JointOver(ss, p), EnabledIn(ins, p), Pow2(2 * p.low.Width()), 0, t);
  }

  /**
   * The joint value is its reset value plus the enabled cycles in every run from reset without writes to the
   * halves if and only if the half width is a multiple of 4; otherwise the idle run already fails.
   */
  lemma JointRunExact(d: Design, p: Pair)
    requires Linked(d, p)
    ensures (forall ins, ss, t: nat :: IsRun(d, ins, ss) && WriteFreeIn(ins, p, 0, t) ==> JointAdvances(ins, ss, p, t))
            <==> p.low.Width() % 4 == 0
  {
    if p.low.Width() % 4 == 0 {
      forall ins, ss, t: nat | IsRun(d, ins, ss) && WriteFreeIn(ins, p, 0, t) ensures JointAdvances(ins, ss, p, t) {
        JointRun(d, ins, ss, p, 0, t);
      }
    } else {
      var t := MissedCarry(d, p);
      var ins, ss := IdleDrives(), IdleRun(d);
      assert WriteFreeIn(ins, p, 0, t) && WriteFreeIn(ins, p, 0, t + 1);
      if JointAdvances(ins, ss, p, t) && JointAdvances(ins, ss, p, t + 1) { AdvancesStep(d, ins, ss, p, t); }
    }
  }

  /** One 6-bit half: a counter of the port `en`, or the high half of register `lo`. */
  function SixBits(incrementWhen: Option<string>, incrementHighOf: Option<string>): Field {
    Field(
      "value", 5, 0, true, true, true, false, 0, false, None, None, None, false, false, false,
      incrementWhen, incrementHighOf)
  }

  function NarrowPair(): Pair {
    var low, high := SixBits(Some("en"), None), SixBits(None, Some("lo"));
    Pair(Reg("lo", 0xB00, 32, false, [low], None, None), low, Reg("high", 0xB80, 32, false, [high], None, None), high)
  }

  function NarrowDesign(): Design {
    Design(32, [NarrowPair().lowReg, NarrowPair().highReg])
  }

  lemma NarrowAccepted(d: Design, p: Pair)
    requires p == NarrowPair() && d.xlen == 32 && d.regs == [p.lowReg, p.highReg]
    ensures Named(d) && Validate(d).None?
  {
    assert |p.lowReg.name| != |p.highReg.name|;
    assert p.lowReg.fields[1..] == [] && p.lowReg.fields[0] == p.low && p.highReg.fields[0] == p.high;
    assert CounterFields(p.lowReg.fields) == [p.low];
    assert FindReg(d.regs, "lo") == Some(p.lowReg);
    assert AcceptedField(d, p.low) && AcceptedField(d, p.high);
    ValidateExact(d);
  }

  /** The validator lets such a pair through: an accepted design with 6-bit halves, and a cycle that miscounts. */
  lemma NarrowPairMiscounts() returns (t: nat)
    ensures var d, p := NarrowDesign(), NarrowPair();
            && Linked(d, p) && p.low.Width() == 6
            && IsRun(d, IdleDrives(), IdleRun(d)) && Undisturbed(IdleRun(d)(t), IdleInputs(), p)
            && !CountsAsOne(d, IdleRun(d)(t), IdleInputs(), p)
  {
    NarrowAccepted(NarrowDesign(), NarrowPair());
    t := MissedCarry(NarrowDesign(), NarrowPair());
  }
}
