/** What the adapter passes between the core and the generated file: commands, interrupt lines and counter events. */
module AdapterLaws {
  import opened Bits
  import opened Options
  import opened Counting
  import opened CsrDesign
  import opened CsrLayout
  import opened CsrEmitter
  import opened CsrCorrect
  import CsrLaws
  import opened CsrCounters
  import CsrTop
  import opened IbexFixture
  import opened HybridMachine
  import opened HybridInvariants

  // ----- Commands -----

  predicate IsCounter(n: nat) {
    n == 0 || 3 <= n <= 12
  }

  /** CSRs kept in the generated file: trap setup and handling, debug, and what belongs to the counters. */
  ghost predicate InFile(addr: nat) {
    || addr == 0x300 || addr == 0x304 || addr == 0x305 || 0x340 <= addr <= 0x344 || 0x7B0 <= addr <= 0x7B3
    || exists n: nat :: IsCounter(n) && (addr == 0xB00 + n || addr == 0xB80 + n || addr == 0x320 + n)
  }

  lemma OwnedIsInFile(addr: nat)
    ensures Owned(addr) <==> InFile(addr)
  {
    if Owned(addr) {
      if addr == 0xB00 || 0xB03 <= addr <= 0xB0C {
        assert IsCounter(addr - 0xB00);
      } else if addr == 0xB80 || 0xB83 <= addr <= 0xB8C {
        assert IsCounter(addr - 0xB80);
      } else if addr == 0x320 || 0x323 <= addr <= 0x32C {
        assert IsCounter(addr - 0x320);
      }
    }
  }

  /** The core issues a write, set or clear to `r` in this cycle. */
  ghost predicate CoreWrites(c: Cycle, r: Reg) {
    !c.mtvecInit && c.opEn && 1 <= c.op <= 3 && c.addr == r.address && InFile(c.addr)
  }

  /** The operation on a field's old value: replace, set or clear the bits of the operand. */
  function Operated(c: Cycle, f: Field, old_: BitVec): BitVec
    requires f.lsb <= f.msb
  {
    var data := Slice(c.wdata, f.msb, f.lsb);
    if c.op == 1 then data else if c.op == 2 then Or(old_, data) else And(old_, Not(data))
  }

  /** The word read back in a cycle in which the core addresses `r` shows each field, or zeros for it. */
  lemma SeenField(x: Ibex, m: Machine, c: Cycle, r: Reg, f: Field)
    requires Fixture(x) && Sized(x.design.regs, m.csr) && r in x.design.regs && f in r.fields
    requires WellPlaced(r) && r.regwidth <= 32 && !c.mtvecInit && c.opEn && c.addr == r.address && InFile(c.addr)
    ensures Slice(ReadBack(x.design, m.csr, c), f.msb, f.lsb)
         == if f.swReadable && !f.wpri then Stored(m.csr, r, f) else Zeros(f.Width())
  {
    OwnedIsInFile(c.addr);
    CsrLaws.MuxSelects(x.design.regs, 32, m.csr, r);
    CsrLaws.SizedViews(x.design.regs, m.csr, r);
    LayoutLaw(32, m.csr, r);
  }

  lemma CombinedBits(d: Design, st: Store, c: Cycle, f: Field, old_: BitVec)
    requires f.lsb <= f.msb < 32 && !c.mtvecInit && 2 <= c.op <= 3 && Slice(ReadBack(d, st, c), f.msb, f.lsb) == old_
    ensures DataBits(f, CmdData(d, st, c)) == Operated(c, f, old_)
  {
    CsrLaws.PrecomputedBits(c.op, f, old_, c.wdata, ReadBack(d, st, c));
  }

  lemma PlainBits(d: Design, st: Store, c: Cycle, f: Field, old_: BitVec)
    requires f.lsb <= f.msb < 32 && !c.mtvecInit && c.op == 1
    ensures DataBits(f, CmdData(d, st, c)) == Operated(c, f, old_)
  {
  }

  lemma OperandBits(x: Ibex, m: Machine, c: Cycle, r: Reg, f: Field)
    requires Fixture(x) && Sized(x.design.regs, m.csr) && r in x.design.regs && f in r.fields
    requires WellPlaced(r) && r.regwidth <= 32 && CoreWrites(c, r) && (c.op == 1 || (f.swReadable && !f.wpri))
    ensures DataBits(f, CmdData(x.design, m.csr, c)) == Operated(c, f, Stored(m.csr, r, f))
  {
    if c.op != 1 {
      SeenField(x, m, c, r, f);
      CombinedBits(x.design, m.csr, c, f, Stored(m.csr, r, f));
    } else {
      PlainBits(x.design, m.csr, c, f, Stored(m.csr, r, f));
    }
  }

  lemma FiresIffCoreWrites(x: Ibex, m: Machine, c: Cycle, r: Reg)
    ensures Fires(HybridInputs(x, m, c), r) <==> CoreWrites(c, r) || (c.mtvecInit && r.address == 0x305)
  {
    OwnedIsInFile(c.addr);
  }

  lemma WriteLandsStep(x: Ibex, m: Machine, c: Cycle, r: Reg, f: Field)
    requires Fixture(x) && Sized(x.design.regs, m.csr) && r in x.design.regs && f in r.fields
    requires f.swWritable && !f.wpri && CoreWrites(c, r)
    ensures Stored(HybridStep(x, m, c).csr, r, f) == Legalise(f, DataBits(f, CmdData(x.design, m.csr, c)))
  {
    SizedAt(x, m, r, f);
    FiresIffCoreWrites(x, m, c, r);
    EmittedFieldCorrect(x.design, m.csr, HybridInputs(x, m, c), r, f);
  }

  /**
   * Every write, set or clear of the core to a CSR of the file lands, in every run: each field that software may
   * write takes the legalised result of the operation on its own bits of the operand.
   */
  lemma CoreWriteLands(x: Ibex, run: CoreRun, ms: Trace, t: nat, r: Reg, f: Field)
    requires Fixture(x) && IsRun(x, run, ms) && r in x.design.regs && f in r.fields
    requires WellPlaced(r) && r.regwidth <= 32 && CoreWrites(run(t), r)
    requires f.swWritable && !f.wpri && (run(t).op == 1 || f.swReadable)
    ensures Stored(ms(t + 1).csr, r, f) == Legalise(f, Operated(run(t), f, Stored(ms(t).csr, r, f)))
  {
    InvAlways(x, run, ms, t);
    assert StepsAt(x, run, ms, t);
    WriteLandsStep(x, ms(t), run(t), r, f);
    OperandBits(x, ms(t), run(t), r, f);
  }

  /**
   * Every access of the core to a CSR of the file, in every run, reads each of its fields as it is before the edge; a
   * field that is reserved or that software may not read shows zeros.
   */
  lemma CoreReadShows(x: Ibex, run: CoreRun, ms: Trace, t: nat, r: Reg, f: Field)
    requires Fixture(x) && IsRun(x, run, ms) && r in x.design.regs && f in r.fields
    requires WellPlaced(r) && r.regwidth <= 32
    requires !run(t).mtvecInit && run(t).opEn && run(t).addr == r.address && InFile(run(t).addr)
    ensures Slice(ReadBack(x.design, ms(t).csr, run(t)), f.msb, f.lsb)
         == if f.swReadable && !f.wpri then Stored(ms(t).csr, r, f) else Zeros(f.Width())
  {
    InvAlways(x, run, ms, t);
    SeenField(x, ms(t), run(t), r, f);
  }

  lemma HoldValue(d: Design, st: Store, i: Inputs, r: Reg, f: Field)
    requires !f.hwWritable && f.incrementWhen.None? && f.incrementHighOf.None? && !(Fires(i, r) && Writable(f))
    ensures FieldNext(d, st, i, r, f) == Stored(st, r, f)
  {
  }

  lemma HoldStep(x: Ibex, m: Machine, c: Cycle, r: Reg, f: Field)
    requires Fixture(x) && Sized(x.design.regs, m.csr) && r in x.design.regs && f in r.fields
    requires !f.hwWritable && f.incrementWhen.None? && f.incrementHighOf.None?
    requires !(f.swWritable && !f.wpri && (CoreWrites(c, r) || (c.mtvecInit && r.address == 0x305)))
    ensures Stored(HybridStep(x, m, c).csr, r, f) == Stored(m.csr, r, f)
  {
    SizedAt(x, m, r, f);
    FiresIffCoreWrites(x, m, c, r);
    HoldValue(x.design, m.csr, HybridInputs(x, m, c), r, f);
    EmittedFieldCorrect(x.design, m.csr, HybridInputs(x, m, c), r, f);
  }

  /**
   * Nothing else writes it: a field that hardware does not drive keeps its value in every cycle in which the core does
   * not write its register, or software may not write the field; the reset-time replay writes mtvec only.
   */
  lemma OtherwiseHolds(x: Ibex, run: CoreRun, ms: Trace, t: nat, r: Reg, f: Field)
    requires Fixture(x) && IsRun(x, run, ms) && r in x.design.regs && f in r.fields
    requires !f.hwWritable && f.incrementWhen.None? && f.incrementHighOf.None?
    requires !(f.swWritable && !f.wpri && (CoreWrites(run(t), r) || (run(t).mtvecInit && r.address == 0x305)))
    ensures Stored(ms(t + 1).csr, r, f) == Stored(ms(t).csr, r, f)
  {
    InvAlways(x, run, ms, t);
    assert StepsAt(x, run, ms, t);
    HoldStep(x, ms(t), run(t), r, f);
  }

  // ----- Interrupt lines -----

  lemma MirrorValue(x: Ibex, m: Machine, c: Cycle, data: BitVec, next: BitVec, f: Field, line: bool)
    requires TrapRegisters(x) && OtherRegisters(x) && FieldRule(x, m, c, data, next, x.mip, f)
    requires f.hwMirror && f.hwWritable && !f.swWritable && MirroredValue(x, c, Member(x.mip, f)) == [line]
    ensures next == [line]
  {
  }

  lemma MirrorNames(x: Ibex)
    requires Fixture(x)
    ensures Member(x.mip, x.mtip) != Member(x.mip, x.msip)
    ensures Member(x.mip, x.meip) != Member(x.mip, x.msip) && Member(x.mip, x.meip) != Member(x.mip, x.mtip)
    ensures Member(x.mip, x.mfip) != Member(x.mip, x.msip) && Member(x.mip, x.mfip) != Member(x.mip, x.mtip)
    ensures Member(x.mip, x.mfip) != Member(x.mip, x.meip)
  {
    assert IsMip(x, x.msip) && IsMip(x, x.mtip) && IsMip(x, x.meip) && IsMip(x, x.mfip);
    OtherMember(x, x.mip, x.mtip, x.mip, x.msip);
    OtherMember(x, x.mip, x.meip, x.mip, x.msip);
    OtherMember(x, x.mip, x.meip, x.mip, x.mtip);
    OtherMember(x, x.mip, x.mfip, x.mip, x.msip);
    OtherMember(x, x.mip, x.mfip, x.mip, x.mtip);
    OtherMember(x, x.mip, x.mfip, x.mip, x.meip);
  }

  ghost predicate IsMip(x: Ibex, f: Field) {
    CsrTop.IsMember(x.design, x.mip, f)
  }

  lemma MirrorStep(x: Ibex, m: Machine, c: Cycle, f: Field, line: bool)
    requires Fixture(x) && Sized(x.design.regs, m.csr) && f in x.mip.fields
    requires f.hwMirror && f.hwWritable && !f.swWritable && MirroredValue(x, c, Member(x.mip, f)) == [line]
    requires Validate(x.design).None?
    ensures Stored(HybridStep(x, m, c).csr, x.mip, f) == [line]
  {
    ValidateExact(x.design);
    assert AcceptedField(x.design, f);
    FieldStep(x, m, c, x.mip, f);
    MirrorValue(x, m, c, CmdData(x.design, m.csr, c), Stored(HybridStep(x, m, c).csr, x.mip, f), f, line);
  }

  /** mip shows each interrupt line as it was one cycle before, whatever software writes. */
  lemma PendingFollowsLines(x: Ibex, run: CoreRun, ms: Trace, t: nat)
    requires Fixture(x) && Validate(x.design).None? && IsRun(x, run, ms)
    ensures Stored(ms(t + 1).csr, x.mip, x.msip) == [run(t).irqSoftware]
    ensures Stored(ms(t + 1).csr, x.mip, x.mtip) == [run(t).irqTimer]
    ensures Stored(ms(t + 1).csr, x.mip, x.meip) == [run(t).irqExternal]
    ensures Stored(ms(t + 1).csr, x.mip, x.mfip) == [run(t).irqFast]
  {
    InvAlways(x, run, ms, t);
    assert StepsAt(x, run, ms, t);
    MirrorNames(x);
    MirrorStep(x, ms(t), run(t), x.msip, run(t).irqSoftware);
    MirrorStep(x, ms(t), run(t), x.mtip, run(t).irqTimer);
    MirrorStep(x, ms(t), run(t), x.meip, run(t).irqExternal);
    MirrorStep(x, ms(t), run(t), x.mfip, run(t).irqFast);
  }

  // ----- Counter events -----

  function Digit(k: nat): char
    requires k < 10
  {
    "0123456789"[k]
  }

  /** The enable port of counter `n`. */
  function HpmPort(n: nat): string
    requires 3 <= n <= 12
  {
    "hpm" + (if n < 10 then [Digit(n)] else ['1', Digit(n - 10)]) + "_inc_en"
  }

  lemma HpmPortIs(n: nat)
    requires 3 <= n <= 12
    ensures CounterOf(HpmPort(n)) == Some(n)
  {
    var p := HpmPort(n);
    assert p[0] == 'h' && |p| == (if n < 10 then 11 else 12);
    assert n < 10 ==> p[3] == Digit(n);
    assert n >= 10 ==> p[3] == '1' && p[4] == Digit(n - 10);
  }

  /** The cycles in which event `n` occurs while bit `n - 3` of the stored HPM inhibit field is 0. */
  ghost function HpmDue(x: Ibex, run: CoreRun, ms: Trace, n: nat): nat -> bool {
    (t: nat) => run(t).events(n) && !Bit(Stored(ms(t).csr, x.mcountinhibit, x.hpm), n - 3)
  }

  /** Two linked 32-bit halves at the addresses of counter `n`, enabled by its own port. */
  ghost predicate HpmPair(x: Ibex, p: Pair, n: nat) {
    && 3 <= n <= 12 && Linked(x.design, p) && p.low.Width() == 32
    && p.lowReg.address == 0xB00 + n && p.highReg.address == 0xB80 + n && p.low.incrementWhen == Some(HpmPort(n))
  }

  lemma HpmIsPair(x: Ibex, p: Pair, n: nat)
    requires HpmPair(x, p, n)
    ensures CounterPair(x, p, n)
  {
    HpmPortIs(n);
  }

  lemma HpmDueIsDue(x: Ibex, run: CoreRun, ms: Trace, n: nat)
    requires 3 <= n <= 12
    ensures forall u: nat :: Due(x, run, ms, n)(u) == HpmDue(x, run, ms, n)(u)
  {
    forall u: nat ensures Due(x, run, ms, n)(u) == HpmDue(x, run, ms, n)(u) {
      assert Due(x, run, ms, n)(u) == (run(u).events(n) && !InhibitBit(x, ms(u).csr, n));
      assert HpmDue(x, run, ms, n)(u) == (run(u).events(n) && !Bit(Stored(ms(u).csr, x.mcountinhibit, x.hpm), n - 3));
    }
  }

  /** Performance counter `n` advances by exactly the cycles in which its own event occurs and its own bit is clear. */
  lemma HpmCounterExact(x: Ibex, run: CoreRun, ms: Trace, p: Pair, n: nat, t0: nat, t: nat)
    requires Fixture(x) && IsRun(x, run, ms) && HpmPair(x, p, n)
    requires t0 <= t && forall u: nat :: t0 <= u < t ==> HalvesUnwritten(run, p, u)
    ensures Advances(JointOf(ms, p), HpmDue(x, run, ms, n), Pow2(64), t0, t)
  {
    HpmIsPair(x, p, n);
    CounterExact(x, run, ms, p, n, t0, t);
    HpmDueIsDue(x, run, ms, n);
    AdvancesAlike(JointOf(ms, p), Due(x, run, ms, n), HpmDue(x, run, ms, n), Pow2(64), t0, t);
  }
}
