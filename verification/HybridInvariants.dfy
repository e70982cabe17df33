/** What every run of the closed loop keeps, and one step of the trap state. */
module HybridInvariants {
  import opened Bits
  import opened Options
  import opened Counting
  import opened CsrDesign
  import opened CsrLayout
  import opened CsrEmitter
  import opened CsrCorrect
  import opened CsrLaws
  import opened CsrCounters
  import opened CsrTop
  import opened IbexFixture
  import opened HybridMachine

  // ----- Bus writes -----

  /** A bus write reaches the owned register at this address. */
  predicate Writes(c: Cycle, addr: nat) {
    if c.mtvecInit then addr == 0x305 else c.opEn && IsWriteOp(c.op) && c.addr == addr
  }

  lemma FiresIsWrites(x: Ibex, m: Machine, c: Cycle, r: Reg)
    requires Owned(r.address)
    ensures Fires(HybridInputs(x, m, c), r) <==> Writes(c, r.address)
  {
  }

  // ----- Masks -----

  /** Shifting a literal left by `k` puts `k` zeros below it. */
  lemma {:induction false} FromNatShift(v: nat, k: nat, w: nat)
    ensures FromNat(Pow2(k) * v, k + w) == Zeros(k) + FromNat(v, w)
  {
    if k == 0 {
      assert Zeros(0) + FromNat(v, w) == FromNat(v, w);
    } else {
      FromNatShift(v, k - 1, w);
      assert Pow2(k) * v == 2 * (Pow2(k - 1) * v);
      assert Zeros(k) == [false] + Zeros(k - 1);
    }
  }

  lemma FromNatOnes(w: nat)
    ensures AllOnes(FromNat(Pow2(w) - 1, w))
  {
    FromNatSmall(Pow2(w) - 1, w);
    AllOnesValue(FromNat(Pow2(w) - 1, w));
  }

  /** Ones above `k` zeros. */
  lemma ShiftedOnes(k: nat, w: nat, mask: nat)
    requires mask == Pow2(k) * (Pow2(w) - 1)
    ensures FromNat(mask, k + w) == Zeros(k) + Ones(w)
  {
    FromNatOnes(w);
    FromNatShift(Pow2(w) - 1, k, w);
    assert FromNat(Pow2(w) - 1, w) == Ones(w);
  }

  lemma PowerLiterals()
    ensures Pow2(1) == 2 && Pow2(6) == 64 && Pow2(24) == 0x1000000 && Pow2(31) == 0x80000000
  {
    assert Pow2(6) == 64 && Pow2(7) == 128 && Pow2(8) == 256;
    Pow2Add(8, 8);
    Pow2Add(16, 8);
    Pow2Add(24, 7);
  }

  lemma EpcMaskBits()
    ensures FromNat(EPC_MASK, 32) == Zeros(1) + Ones(31)
  {
    PowerLiterals();
    ShiftedOnes(1, 31, EPC_MASK);
  }

  lemma BaseMaskBits()
    ensures FromNat(BASE_MASK, 30) == Zeros(6) + Ones(24)
  {
    PowerLiterals();
    ShiftedOnes(6, 24, BASE_MASK);
  }

  lemma LegaliseEpc(f: Field, v: BitVec)
    requires f.warl == Some(Mask(EPC_MASK)) && f.Width() == |v| == 32
    ensures Legalise(f, v) == Aligned(v)
  {
    EpcMaskBits();
  }

  lemma LegaliseMpp(f: Field, v: BitVec)
    requires f.warl == Some(Mask(3)) && f.Width() == |v| == 2
    ensures Legalise(f, v) == v
  {
    assert FromNat(3, 2) == [true, true];
  }

  // ----- The invariant -----

  ghost predicate PrvOk(v: BitVec) {
    v == USER || v == MACHINE
  }

  /** Legal debug privilege, aligned return address, vectored 256-byte-aligned trap vector, and the right widths. */
  ghost predicate MachineInv(x: Ibex, m: Machine) {
    && Sized(x.design.regs, m.csr) && |m.priv| == 2
    && PrvOk(Stored(m.csr, x.dcsr, x.prv))
    && !Bit(MepcOut(x, m.csr), 0)
    && Stored(m.csr, x.mtvec, x.mode) == [true, false]
    && Legal(x.base, Stored(m.csr, x.mtvec, x.base))
  }

  lemma SizedAt(x: Ibex, m: Machine, r: Reg, f: Field)
    requires Sized(x.design.regs, m.csr) && r in x.design.regs && f in r.fields
    ensures Ref(r, f) in m.csr && |Stored(m.csr, r, f)| == f.Width()
  {
  }

  lemma MirrorWidth(x: Ibex, c: Cycle, r: Reg, f: Field)
    requires OtherRegisters(x) && Connected(x, r, f) && f.hwMirror
    ensures |MirroredValue(x, c, Member(r, f))| == f.Width()
  {
  }

  lemma TrackedWidth(x: Ibex, m: Machine, c: Cycle, r: Reg, f: Field)
    requires TrapRegisters(x) && IsTracked(x, r, f)
    requires |Stored(m.csr, r, f)| == f.Width() && |m.priv| == 2
    requires |Stored(m.csr, x.mstatus, x.mie)| == 1 && |Stored(m.csr, x.mstatus, x.mpie)| == 1
    ensures |Expected(x, m, c, r, f)| == f.Width()
  {
  }

  lemma ExpectedWidth(x: Ibex, m: Machine, c: Cycle, r: Reg, f: Field)
    requires TrapRegisters(x) && OtherRegisters(x) && Connected(x, r, f)
    requires |Stored(m.csr, r, f)| == f.Width() && |m.priv| == 2
    requires |Stored(m.csr, x.mstatus, x.mie)| == 1 && |Stored(m.csr, x.mstatus, x.mpie)| == 1
    ensures |Expected(x, m, c, r, f)| == f.Width()
  {
    if IsTracked(x, r, f) {
      TrackedWidth(x, m, c, r, f);
    } else if f.hwMirror {
      MirrorWidth(x, c, r, f);
    }
  }

  lemma DrivesHaveWidth(x: Ibex, m: Machine, c: Cycle)
    requires Fixture(x) && Sized(x.design.regs, m.csr) && |m.priv| == 2
    ensures HwifSized(x.design, HybridInputs(x, m, c))
  {
    forall r, f | r in x.design.regs && f in r.fields && f.hwWritable
      ensures |HybridInputs(x, m, c).hwif(Member(r, f))| == f.Width()
    {
      assert IsMember(x.design, r, f);
      DrivenIsExpected(x, m, c, r, f);
      SizedAt(x, m, r, f);
      SizedAt(x, m, x.mstatus, x.mie);
      SizedAt(x, m, x.mstatus, x.mpie);
      ExpectedWidth(x, m, c, r, f);
    }
  }

  /** A bus write legalises its data bits; else hardware drives the expected value; else the field holds. */
  ghost predicate FieldRule(x: Ibex, m: Machine, c: Cycle, data: BitVec, next: BitVec, r: Reg, f: Field) {
    next
    == if Writes(c, r.address) && Writable(f) then Legalise(f, DataBits(f, data))
       else if f.hwWritable then Expected(x, m, c, r, f)
       else Stored(m.csr, r, f)
  }

  lemma NextObeysRule(x: Ibex, m: Machine, c: Cycle, i: Inputs, r: Reg, f: Field)
    requires Owned(r.address) && !f.Counter() && f.incrementWhen.None? && f.incrementHighOf.None?
    requires i.op == (if c.mtvecInit || IsWriteOp(c.op) then 1 else 0)
    requires Fires(i, r) <==> Writes(c, r.address)
    requires f.hwWritable ==> i.hwif(Member(r, f)) == Expected(x, m, c, r, f)
    ensures FieldRule(x, m, c, i.wdata, FieldNext(x.design, m.csr, i, r, f), r, f)
  {
  }

  /** One clock edge obeys the rule at every field, outside the counters, of the registers the adapter owns. */
  lemma FieldStep(x: Ibex, m: Machine, c: Cycle, r: Reg, f: Field)
    requires Fixture(x) && Sized(x.design.regs, m.csr) && r in x.design.regs && f in r.fields
    requires Owned(r.address) && !f.Counter()
    ensures FieldRule(x, m, c, CmdData(x.design, m.csr, c), Stored(HybridStep(x, m, c).csr, r, f), r, f)
  {
    SizedAt(x, m, r, f);
    var i := HybridInputs(x, m, c);
    FiresIsWrites(x, m, c, r);
    if f.hwWritable { DrivenIsExpected(x, m, c, r, f); }
    NextObeysRule(x, m, c, i, r, f);
    EmittedFieldCorrect(x.design, m.csr, i, r, f);
  }

  lemma EpcWritten(f: Field, data: BitVec)
    requires f.warl == Some(Mask(EPC_MASK)) && f.Width() == 32 && f.msb == 31 && f.lsb == 0
    ensures !Bit(Legalise(f, DataBits(f, data)), 0)
  {
    LegaliseEpc(f, DataBits(f, data));
  }

  lemma EpcDriven(x: Ibex, m: Machine, c: Cycle)
    requires !Bit(Stored(m.csr, x.mepc, x.epc), 0) && x.mepc != x.mstatus
    ensures !Bit(Expected(x, m, c, x.mepc, x.epc), 0)
  {
  }

  lemma EpcKept(x: Ibex, m: Machine, c: Cycle, data: BitVec, next: BitVec)
    requires TrapRegisters(x) && !Bit(Stored(m.csr, x.mepc, x.epc), 0)
    requires FieldRule(x, m, c, data, next, x.mepc, x.epc)
    ensures !Bit(next, 0)
  {
    if Writes(c, x.mepc.address) { EpcWritten(x.epc, data); } else { EpcDriven(x, m, c); }
  }

  lemma EpcStep(x: Ibex, m: Machine, c: Cycle)
    requires Fixture(x) && Sized(x.design.regs, m.csr) && !Bit(Stored(m.csr, x.mepc, x.epc), 0)
    ensures !Bit(Stored(HybridStep(x, m, c).csr, x.mepc, x.epc), 0)
  {
    FieldStep(x, m, c, x.mepc, x.epc);
    EpcKept(x, m, c, CmdData(x.design, m.csr, c), Stored(HybridStep(x, m, c).csr, x.mepc, x.epc));
  }

  lemma PrvLegal(f: Field, v: BitVec)
    requires f.warl == Some(Enum([0, 3])) && f.Width() == 2
    ensures Legal(f, v) <==> PrvOk(v)
  {
    var values := [0, 3];
    assert FromNat(values[0], 2) == USER && FromNat(values[1], 2) == MACHINE;
  }

  lemma WidthStep(x: Ibex, m: Machine, c: Cycle)
    requires Fixture(x) && MachineInv(x, m)
    ensures Sized(x.design.regs, HybridStep(x, m, c).csr) && |HybridStep(x, m, c).priv| == 2
  {
    DrivesHaveWidth(x, m, c);
    SizedStep(x.design, m.csr, HybridInputs(x, m, c));
    SizedAt(x, m, x.mstatus, x.mpp);
  }

  lemma PrvKept(x: Ibex, m: Machine, c: Cycle)
    requires Fixture(x) && MachineInv(x, m)
    ensures PrvOk(Stored(HybridStep(x, m, c).csr, x.dcsr, x.prv))
  {
    DrivesHaveWidth(x, m, c);
    PrvLegal(x.prv, Stored(m.csr, x.dcsr, x.prv));
    LegalStep(x.design, m.csr, HybridInputs(x, m, c), x.dcsr, x.prv);
    PrvLegal(x.prv, Stored(HybridStep(x, m, c).csr, x.dcsr, x.prv));
  }

  lemma VectorKept(x: Ibex, m: Machine, c: Cycle)
    requires Fixture(x) && MachineInv(x, m)
    ensures Stored(HybridStep(x, m, c).csr, x.mtvec, x.mode) == [true, false]
    ensures Legal(x.base, Stored(HybridStep(x, m, c).csr, x.mtvec, x.base))
  {
    DrivesHaveWidth(x, m, c);
    FieldStep(x, m, c, x.mtvec, x.mode);
    LegalStep(x.design, m.csr, HybridInputs(x, m, c), x.mtvec, x.base);
  }

  lemma InvStep(x: Ibex, m: Machine, c: Cycle)
    requires Fixture(x) && MachineInv(x, m)
    ensures MachineInv(x, HybridStep(x, m, c))
  {
    WidthStep(x, m, c);
    EpcStep(x, m, c);
    PrvKept(x, m, c);
    VectorKept(x, m, c);
  }

  lemma ZerosFromNat(w: nat)
    ensures FromNat(0, w) == Zeros(w)
  {
    FromNatShift(0, w, 0);
    assert Zeros(w) + FromNat(0, 0) == Zeros(w);
  }

  lemma ResetStored(d: Design, r: Reg, f: Field)
    requires DistinctNames(d.regs) && r in d.regs && f in r.fields
    ensures Stored(ResetStore(d), r, f) == FromNat(f.reset, f.Width())
  {
    ResetAt(d, r, f);
  }

  lemma ResetLiterals()
    ensures FromNat(1, 2) == [true, false] && FromNat(3, 2) == MACHINE
    ensures FromNat(0, 30) == Zeros(30) && FromNat(0, 32) == Zeros(32)
  {
    ZerosFromNat(30);
    ZerosFromNat(32);
  }

  lemma ResetValues(x: Ibex)
    requires Fixture(x)
    ensures Stored(ResetStore(x.design), x.dcsr, x.prv) == MACHINE
    ensures Stored(ResetStore(x.design), x.mepc, x.epc) == Zeros(32)
    ensures Stored(ResetStore(x.design), x.mtvec, x.mode) == [true, false]
    ensures Stored(ResetStore(x.design), x.mtvec, x.base) == Zeros(30)
  {
    ResetStored(x.design, x.dcsr, x.prv);
    ResetStored(x.design, x.mepc, x.epc);
    ResetStored(x.design, x.mtvec, x.mode);
    ResetStored(x.design, x.mtvec, x.base);
    ResetLiterals();
  }

  lemma InvReset(x: Ibex)
    requires Fixture(x)
    ensures MachineInv(x, HybridReset(x))
  {
    ResetSized(x.design);
    ResetValues(x);
  }

  // ----- Runs -----

  type CoreRun = nat -> Cycle

  type Trace = nat -> Machine

  ghost predicate StepsAt(x: Ibex, run: CoreRun, ms: Trace, t: nat) {
    ms(t + 1) == HybridStep(x, ms(t), run(t))
  }

  /** The states the closed loop goes through under the core's cycles `run`, from reset. */
  ghost predicate IsRun(x: Ibex, run: CoreRun, ms: Trace) {
    ms(0) == HybridReset(x) && forall t: nat :: StepsAt(x, run, ms, t)
  }

  function MachineAt(x: Ibex, run: CoreRun, t: nat): Machine {
    if t == 0 then HybridReset(x) else HybridStep(x, MachineAt(x, run, t - 1), run(t - 1))
  }

  function MachinesOf(x: Ibex, run: CoreRun): Trace {
    (t: nat) => MachineAt(x, run, t)
  }

  /** Whatever the core presents, the closed loop has a run. */
  lemma EveryInputRuns(x: Ibex, run: CoreRun) returns (ms: Trace)
    ensures IsRun(x, run, ms)
  {
    ms := MachinesOf(x, run);
    forall t: nat ensures StepsAt(x, run, ms, t) {
      assert MachineAt(x, run, t + 1) == HybridStep(x, MachineAt(x, run, t), run(t));
    }
  }

  lemma InvAlways(x: Ibex, run: CoreRun, ms: Trace, t: nat)
    requires Fixture(x) && IsRun(x, run, ms)
    ensures MachineInv(x, ms(t))
  {
    var p := (u: nat) => MachineInv(x, ms(u));
    InvReset(x);
    forall u: nat ensures KeptAt(p, u) {
      assert StepsAt(x, run, ms, u);
      if MachineInv(x, ms(u)) { InvStep(x, ms(u), run(u)); }
    }
    Always(p, t);
  }

  /** The read value shows a readable field in its place. */
  lemma FieldView(x: Ibex, st: Store, r: Reg, f: Field)
    requires Sized(x.design.regs, st) && r in x.design.regs && r.regwidth == 32 && WellPlaced(r)
    requires f in r.fields && f.swReadable && !f.wpri
    ensures |ReadValue(32, st, r)| == 32
    ensures Slice(ReadValue(32, st, r), f.msb, f.lsb) == Stored(st, r, f)
  {
    SizedViews(x.design.regs, st, r);
    LayoutLaw(32, st, r);
  }

  lemma SplitAtTwo(v: BitVec)
    requires |v| == 32
    ensures v == Slice(v, 1, 0) + Slice(v, 31, 2)
  {
  }

  lemma MtvecView(x: Ibex, st: Store)
    requires OtherRegisters(x) && Sized(x.design.regs, st)
    ensures ReadValue(32, st, x.mtvec) == MtvecOut(x, st)
  {
    var v := ReadValue(32, st, x.mtvec);
    FieldView(x, st, x.mtvec, x.mode);
    FieldView(x, st, x.mtvec, x.base);
    SplitAtTwo(v);
  }

  lemma LowBitsClear(f: Field, base: BitVec)
    requires f.warl == Some(Mask(BASE_MASK)) && Legal(f, base) && |base| == f.Width() == 30
    ensures base[..6] == Zeros(6)
  {
    BaseMaskBits();
    assert forall k :: 0 <= k < 6 ==> !Bit(FromNat(BASE_MASK, 30), k);
  }

  lemma LowByte(base: BitVec)
    requires |base| == 30 && base[..6] == Zeros(6)
    ensures Slice([true, false] + base, 7, 0) == FromNat(1, 8)
  {
    var v := Slice([true, false] + base, 7, 0);
    assert forall k :: 2 <= k < 8 ==> v[k] == base[..6][k - 2];
    assert v == [true] + Zeros(7);
    ZerosFromNat(7);
    assert FromNat(1, 8) == [true] + FromNat(0, 7);
  }

  /**
   * In every reachable state of the closed loop, whatever the core does: the return address has bit 0 clear,
   * the stored debug privilege is U or M, and the trap vector that software reads back is the one the core
   * jumps through, with low byte 0x01.
   */
  lemma ClosedLoopLegality(x: Ibex, run: CoreRun, ms: Trace, t: nat)
    requires Fixture(x) && IsRun(x, run, ms)
    ensures var st := ms(t).csr;
            && |MepcOut(x, st)| == 32 && !MepcOut(x, st)[0]
            && PrvOk(Stored(st, x.dcsr, x.prv))
            && ReadValue(32, st, x.mtvec) == MtvecOut(x, st)
            && Slice(MtvecOut(x, st), 7, 0) == FromNat(1, 8)
  {
    InvAlways(x, run, ms, t);
    var m := ms(t);
    SizedAt(x, m, x.mepc, x.epc);
    SizedAt(x, m, x.mtvec, x.base);
    MtvecView(x, m.csr);
    LowBitsClear(x.base, Stored(m.csr, x.mtvec, x.base));
    LowByte(Stored(m.csr, x.mtvec, x.base));
  }

  /** A base whose low six bits are zero passes the mask unchanged. */
  lemma BaseUnmasked(f: Field, base: BitVec)
    requires f.warl == Some(Mask(BASE_MASK)) && f.Width() == |base| == 30 && base[..6] == Zeros(6)
    ensures Legalise(f, base) == base
  {
    BaseMaskBits();
    assert forall k :: 0 <= k < 6 ==> base[k] == base[..6][k];
  }

  lemma InitData(boot: Word)
    ensures Slice(InitVector(boot), 31, 2)[..6] == Zeros(6)
    ensures InitVector(boot) == [true, false] + Slice(InitVector(boot), 31, 2)
  {
  }

  lemma InitBytes(boot: Word)
    ensures InitVector(boot) == [true] + Zeros(7) + boot[8..]
  {
  }

  /** The reset-time replay leaves the boot address's vector in mtvec, whatever the core does in that cycle. */
  lemma InitLoadsVector(x: Ibex, run: CoreRun, ms: Trace, t: nat)
    requires Fixture(x) && IsRun(x, run, ms) && run(t).mtvecInit
    ensures MtvecOut(x, ms(t + 1).csr) == [true] + Zeros(7) + run(t).bootAddr[8..]
  {
    InitBytes(run(t).bootAddr);
    InvAlways(x, run, ms, t);
    assert StepsAt(x, run, ms, t);
    FieldStep(x, ms(t), run(t), x.mtvec, x.mode);
    FieldStep(x, ms(t), run(t), x.mtvec, x.base);
    InitData(run(t).bootAddr);
    BaseUnmasked(x.base, Slice(InitVector(run(t).bootAddr), 31, 2));
  }

  /** Interrupt flag on top, the cause code at the bottom, ones in between for internal interrupts. */
  ghost predicate RecordsCause(v: BitVec, c: Cycle) {
    && |v| == 32 && v[31] == (c.irqExt || c.irqInt) && Slice(v, 4, 0) == c.lowerCause
    && forall k :: 5 <= k < 31 ==> v[k] == c.irqInt
  }

  lemma CauseLayout(c: Cycle)
    ensures RecordsCause(CauseWord(c), c)
  {
  }

  lemma TrapWins(x: Ibex, m: Machine, c: Cycle, data: BitVec, next: BitVec, r: Reg, f: Field)
    requires TrapRegisters(x) && c.saveCause && !Writes(c, r.address) && FieldRule(x, m, c, data, next, r, f)
    requires (r == x.mcause && f == x.cause) || (r == x.mtval && f == x.tval)
    ensures next == if r == x.mcause then CauseWord(c) else c.tval
  {
  }

  lemma RecordStep(x: Ibex, m: Machine, c: Cycle, r: Reg, f: Field)
    requires Fixture(x) && Sized(x.design.regs, m.csr) && c.saveCause && !Writes(c, r.address)
    requires (r == x.mcause && f == x.cause) || (r == x.mtval && f == x.tval)
    ensures Stored(HybridStep(x, m, c).csr, r, f) == if r == x.mcause then CauseWord(c) else c.tval
  {
    FieldStep(x, m, c, r, f);
    TrapWins(x, m, c, CmdData(x.design, m.csr, c), Stored(HybridStep(x, m, c).csr, r, f), r, f);
  }

  /** A bus write to a register that a trap saves leaves the written bits, legalised. */
  lemma WriteLands(x: Ibex, m: Machine, c: Cycle, data: BitVec, next: BitVec, r: Reg, f: Field)
    requires TrapRegisters(x) && IsTracked(x, r, f) && Writes(c, r.address) && FieldRule(x, m, c, data, next, r, f)
    ensures next == Legalise(f, DataBits(f, data))
  {
  }

  lemma WriteStep(x: Ibex, m: Machine, c: Cycle, r: Reg, f: Field)
    requires Fixture(x) && Sized(x.design.regs, m.csr) && IsTracked(x, r, f) && Writes(c, r.address)
    ensures Stored(HybridStep(x, m, c).csr, r, f) == Legalise(f, DataBits(f, CmdData(x.design, m.csr, c)))
  {
    FieldStep(x, m, c, r, f);
    WriteLands(x, m, c, CmdData(x.design, m.csr, c), Stored(HybridStep(x, m, c).csr, r, f), r, f);
  }

  /** What the core's command carries in this cycle. */
  function BusData(x: Ibex, run: CoreRun, ms: Trace, t: nat): BitVec {
    CmdData(x.design, ms(t).csr, run(t))
  }

  lemma CommandWidth(d: Design, st: Store, c: Cycle)
    ensures |CmdData(d, st, c)| == 32
  {
  }

  lemma WholeWord(v: BitVec)
    requires |v| == 32
    ensures Slice(v, 31, 0) == v
  {
  }

  /** A trap records its cause and value, unless a bus write to the same register lands in that cycle and wins. */
  lemma TrapRecords(x: Ibex, run: CoreRun, ms: Trace, t: nat)
    requires Fixture(x) && IsRun(x, run, ms) && run(t).saveCause
    ensures var cause, tval := Stored(ms(t + 1).csr, x.mcause, x.cause), Stored(ms(t + 1).csr, x.mtval, x.tval);
            && (if Writes(run(t), 0x342) then cause == BusData(x, run, ms, t) else RecordsCause(cause, run(t)))
            && tval == if Writes(run(t), 0x343) then BusData(x, run, ms, t) else run(t).tval
  {
    InvAlways(x, run, ms, t);
    assert StepsAt(x, run, ms, t);
    CauseLayout(run(t));
    CommandWidth(x.design, ms(t).csr, run(t));
    WholeWord(BusData(x, run, ms, t));
    if Writes(run(t), 0x342) {
      WriteStep(x, ms(t), run(t), x.mcause, x.cause);
    } else {
      RecordStep(x, ms(t), run(t), x.mcause, x.cause);
    }
    if Writes(run(t), 0x343) {
      WriteStep(x, ms(t), run(t), x.mtval, x.tval);
    } else {
      RecordStep(x, ms(t), run(t), x.mtval, x.tval);
    }
  }

  // ----- Counters -----

  /** The inhibit bit of an implemented counter. */
  function InhibitBit(x: Ibex, st: Store, n: nat): bool {
    if n == 0 then Bit(Stored(st, x.mcountinhibit, x.cy), 0)
    else n >= 3 && Bit(Stored(st, x.mcountinhibit, x.hpm), n - 3)
  }

  lemma InhibitView(x: Ibex, st: Store, n: nat)
    requires OtherRegisters(x) && Sized(x.design.regs, st) && (n == 0 || 3 <= n <= 12)
    ensures Bit(ReadValue(32, st, x.mcountinhibit), n) == InhibitBit(x, st, n)
  {
    var r, v := x.mcountinhibit, ReadValue(32, st, x.mcountinhibit);
    FieldView(x, st, r, x.cy);
    FieldView(x, st, r, x.hpm);
    if n == 0 {
      assert Slice(v, 0, 0)[0] == Bit(v, 0);
    } else {
      assert Slice(v, 12, 3)[n - 3] == Bit(v, n);
    }
  }

  /** The cycles of a run in which counter `n` is due: its event occurs and its inhibit bit is clear. */
  ghost function Due(x: Ibex, run: CoreRun, ms: Trace, n: nat): nat -> bool {
    (t: nat) => (n == 0 || run(t).events(n)) && !InhibitBit(x, ms(t).csr, n)
  }

  ghost function JointOf(ms: Trace, p: Pair): nat -> nat {
    (t: nat) => Joint(ms(t).csr, p)
  }

  predicate HalvesUnwritten(run: CoreRun, p: Pair, t: nat) {
    !Writes(run(t), p.lowReg.address) && !Writes(run(t), p.highReg.address)
  }

  /** A 64-bit counter of the fixture: two linked 32-bit halves enabled by the port of counter `n`. */
  ghost predicate CounterPair(x: Ibex, p: Pair, n: nat) {
    && Linked(x.design, p) && p.low.Width() == 32
    && Owned(p.lowReg.address) && Owned(p.highReg.address)
    && CounterOf(p.low.incrementWhen.value) == Some(n)
  }

  lemma PortIsDue(x: Ibex, st: Store, c: Cycle, port: string, n: nat)
    requires OtherRegisters(x) && Sized(x.design.regs, st) && CounterOf(port) == Some(n)
    ensures CountPort(x, st, c, port) <==> Event(c, n) && !InhibitBit(x, st, n)
  {
    InhibitView(x, st, n);
  }

  lemma CounterEdge(x: Ibex, m: Machine, c: Cycle, p: Pair, n: nat)
    requires OtherRegisters(x) && Sized(x.design.regs, m.csr) && CounterPair(x, p, n)
    requires !Writes(c, p.lowReg.address) && !Writes(c, p.highReg.address)
    ensures CountsAsOne(x.design, m.csr, HybridInputs(x, m, c), p)
    ensures Enabled(HybridInputs(x, m, c), p) <==> Event(c, n) && !InhibitBit(x, m.csr, n)
  {
    FiresIsWrites(x, m, c, p.lowReg);
    FiresIsWrites(x, m, c, p.highReg);
    PortIsDue(x, m.csr, c, p.low.incrementWhen.value, n);
    SizedHalves(x.design, m.csr, p);
    JointStep(x.design, m.csr, HybridInputs(x, m, c), p);
  }

  lemma CounterStep(x: Ibex, run: CoreRun, ms: Trace, p: Pair, n: nat, t: nat)
    requires Fixture(x) && IsRun(x, run, ms) && CounterPair(x, p, n) && HalvesUnwritten(run, p, t)
    ensures Wraps(JointOf(ms, p), Due(x, run, ms, n), Pow2(64), t)
  {
    InvAlways(x, run, ms, t);
    CounterEdge(x, ms(t), run(t), p, n);
    SizedHalves(x.design, ms(t).csr, p);
    JointBound(x.design, ms(t).csr, p);
    assert StepsAt(x, run, ms, t);
  }

  lemma CounterStart(x: Ibex, run: CoreRun, ms: Trace, p: Pair, n: nat, t: nat)
    requires Fixture(x) && IsRun(x, run, ms) && CounterPair(x, p, n)
    ensures JointOf(ms, p)(t) < Pow2(64)
  {
    InvAlways(x, run, ms, t);
    SizedHalves(x.design, ms(t).csr, p);
    JointBound(x.design, ms(t).csr, p);
  }

  /**
   * Over any stretch without writes to its halves, a 64-bit counter advances by exactly the cycles in which
   * its event occurred and its stored inhibit bit was 0; for mcycle the event is every cycle.
   */
  lemma CounterExact(x: Ibex, run: CoreRun, ms: Trace, p: Pair, n: nat, t0: nat, t: nat)
    requires Fixture(x) && IsRun(x, run, ms) && CounterPair(x, p, n)
    requires t0 <= t && forall u: nat :: t0 <= u < t ==> HalvesUnwritten(run, p, u)
    ensures Advances(JointOf(ms, p), Due(x, run, ms, n), Pow2(64), t0, t)
  {
    CounterStart(x, run, ms, p, n, t0);
    forall u: nat | t0 <= u < t ensures Wraps(JointOf(ms, p), Due(x, run, ms, n), Pow2(64), u) {
      assert HalvesUnwritten(run, p, u);
      CounterStep(x, run, ms, p, n, u);
    }
    WrapRun(JointOf(ms, p), Due(x, run, ms, n), Pow2(64), t0, t);
  }

  /** The cycles whose stored `cy` inhibit bit is 0. */
  function Uninhibited(x: Ibex, ms: Trace): nat -> bool {
    (t: nat) => !Bit(Stored(ms(t).csr, x.mcountinhibit, x.cy), 0)
  }

  lemma DueIsUninhibited(x: Ibex, run: CoreRun, ms: Trace)
    ensures forall u: nat :: Due(x, run, ms, 0)(u) == Uninhibited(x, ms)(u)
  {
    forall u: nat ensures Due(x, run, ms, 0)(u) == Uninhibited(x, ms)(u) {
      assert Due(x, run, ms, 0)(u) == !InhibitBit(x, ms(u).csr, 0);
      assert Uninhibited(x, ms)(u) == !Bit(Stored(ms(u).csr, x.mcountinhibit, x.cy), 0);
    }
  }

  /** mcycle advances by exactly the cycles whose stored `cy` bit was 0. */
  lemma CycleCounterExact(x: Ibex, run: CoreRun, ms: Trace, p: Pair, t0: nat, t: nat)
    requires Fixture(x) && IsRun(x, run, ms) && CounterPair(x, p, 0)
    requires t0 <= t && forall u: nat :: t0 <= u < t ==> HalvesUnwritten(run, p, u)
    ensures Advances(JointOf(ms, p), Uninhibited(x, ms), Pow2(64), t0, t)
  {
    CounterExact(x, run, ms, p, 0, t0, t);
    DueIsUninhibited(x, run, ms);
    AdvancesAlike(JointOf(ms, p), Due(x, run, ms, 0), Uninhibited(x, ms), Pow2(64), t0, t);
  }

  // ----- The adapter's operation collapse -----

  /** The cycle's own operation and operand, as if they were put on the bus unchanged. */
  function Direct(x: Ibex, m: Machine, c: Cycle): Inputs {
    HybridInputs(x, m, c).(op := c.op, wdata := c.wdata)
  }

  /** The registers that the cycle addresses have readable writable fields, in places of their own. */
  ghost predicate Collapsible(x: Ibex, c: Cycle) {
    forall r :: r in x.design.regs && c.addr == r.address ==>
      && WellPlaced(r) && r.regwidth <= 32
      && forall f :: f in r.fields && Writable(f) ==> f.swReadable
  }

  predicate BusOperation(c: Cycle) {
    !c.mtvecInit && IsWriteOp(c.op)
  }

  lemma CollapseStep(x: Ibex, m: Machine, c: Cycle)
    requires Fixture(x) && Sized(x.design.regs, m.csr) && StoreOf(x.design, m.csr)
    requires BusOperation(c) && Collapsible(x, c)
    ensures HybridStep(x, m, c).csr == Clocked(SeqBlock(x.design), m.csr, Direct(x, m, c))
  {
    OpCollapse(x.design, m.csr, Direct(x, m, c));
  }

  /** In every reachable state the file's store holds exactly the design's fields and pulses. */
  lemma StoreAlways(x: Ibex, run: CoreRun, ms: Trace, t: nat)
    requires Fixture(x) && IsRun(x, run, ms)
    ensures StoreOf(x.design, ms(t).csr)
  {
    var p := (u: nat) => StoreOf(x.design, ms(u).csr);
    StoreOfReset(x.design);
    forall u: nat ensures KeptAt(p, u) {
      assert StepsAt(x, run, ms, u);
      ClockedKeys(SeqBlock(x.design), ms(u).csr, HybridInputs(x, ms(u), run(u)));
      if StoreOf(x.design, ms(u).csr) { SameKeys(x.design, ms(u).csr, ms(u + 1).csr); }
    }
    Always(p, t);
  }

  /** One edge of a file that is sent the core's own operation and operand. */
  function DirectStep(x: Ibex, m: Machine, c: Cycle): Machine {
    if BusOperation(c) then Machine(Clocked(SeqBlock(x.design), m.csr, Direct(x, m, c)), NextPriv(x, m, c))
    else HybridStep(x, m, c)
  }

  ghost predicate DirectStepsAt(x: Ibex, run: CoreRun, ms: Trace, t: nat) {
    ms(t + 1) == DirectStep(x, ms(t), run(t))
  }

  ghost predicate IsDirectRun(x: Ibex, run: CoreRun, ms: Trace) {
    ms(0) == HybridReset(x) && forall t: nat :: DirectStepsAt(x, run, ms, t)
  }

  lemma DirectAgrees(x: Ibex, run: CoreRun, ms: Trace, t: nat)
    requires Fixture(x) && IsRun(x, run, ms) && Collapsible(x, run(t))
    ensures DirectStep(x, ms(t), run(t)) == HybridStep(x, ms(t), run(t))
  {
    if BusOperation(run(t)) {
      InvAlways(x, run, ms, t);
      StoreAlways(x, run, ms, t);
      CollapseStep(x, ms(t), run(t));
    }
  }

  lemma DirectRunStep(x: Ibex, run: CoreRun, ms: Trace, ds: Trace, t: nat)
    requires Fixture(x) && IsRun(x, run, ms) && IsDirectRun(x, run, ds) && Collapsible(x, run(t))
    requires ds(t) == ms(t)
    ensures ds(t + 1) == ms(t + 1)
  {
    DirectAgrees(x, run, ms, t);
    assert StepsAt(x, run, ms, t) && DirectStepsAt(x, run, ds, t);
  }

  lemma DirectRunFollows(x: Ibex, run: CoreRun, ms: Trace, ds: Trace, t: nat)
    requires Fixture(x) && IsRun(x, run, ms) && IsDirectRun(x, run, ds)
    requires forall u: nat :: Collapsible(x, run(u))
    ensures ds(t) == ms(t)
  {
    var same := (u: nat) => ds(u) == ms(u);
    forall u: nat ensures KeptAt(same, u) {
      if ds(u) == ms(u) { DirectRunStep(x, run, ms, ds, u); }
    }
    Always(same, t);
  }

  /**
   * Sending the precomputed value as a plain WRITE, as the adapter does, is sending the core's WRITE, SET or CLEAR
   * itself: the closed loop has the same runs either way, whenever the writable fields of the addressed registers
   * are readable.
   */
  lemma AdapterCollapse(x: Ibex, run: CoreRun, ms: Trace)
    requires Fixture(x) && forall t: nat :: Collapsible(x, run(t))
    ensures IsRun(x, run, ms) <==> IsDirectRun(x, run, ms)
  {
    if IsRun(x, run, ms) {
      forall t: nat ensures DirectStepsAt(x, run, ms, t) {
        DirectAgrees(x, run, ms, t);
        assert StepsAt(x, run, ms, t);
      }
    }
    if IsDirectRun(x, run, ms) {
      var hs := EveryInputRuns(x, run);
      forall t: nat ensures StepsAt(x, run, ms, t) {
        DirectRunFollows(x, run, hs, ms, t);
        DirectRunFollows(x, run, hs, ms, t + 1);
        assert StepsAt(x, run, hs, t);
      }
    }
  }
}
