/** The closed loop reduced to the state that traps save and returns restore. */
module TrapMachine {
  import opened Bits
  import opened CsrDesign
  import opened CsrLayout
  import opened IbexFixture
  import opened HybridMachine
  import opened HybridInvariants

  /** The part of the machine that a trap saves and a return restores. */
  datatype TrapState = TrapState(mie: BitVec, mpie: BitVec, mpp: BitVec, epc: BitVec, priv: BitVec)

  function TrapStateOf(x: Ibex, m: Machine): TrapState {
    TrapState(Stored(m.csr, x.mstatus, x.mie), Stored(m.csr, x.mstatus, x.mpie), Stored(m.csr, x.mstatus, x.mpp),
         Stored(m.csr, x.mepc, x.epc), m.priv)
  }

  // ----- Cycles -----

  predicate NoTransfer(c: Cycle) {
    !c.saveCause && !c.mret && !c.dret
  }

  predicate NoTrapWrite(c: Cycle) {
    !Writes(c, 0x300) && !Writes(c, 0x341)
  }

  /** Nothing that concerns the trap state happens. */
  predicate IsQuiet(c: Cycle) { NoTransfer(c) && NoTrapWrite(c) }

  predicate IsEntry(c: Cycle) { c.saveCause && !c.mret && !c.dret && NoTrapWrite(c) }

  predicate IsExit(c: Cycle) { c.mret && !c.saveCause && !c.dret && NoTrapWrite(c) }

  predicate IsRead(c: Cycle, addr: nat) {
    IsQuiet(c) && !c.mtvecInit && c.opEn && c.op == 0 && c.addr == addr
  }

  predicate IsWriteBack(c: Cycle, addr: nat, v: BitVec) {
    NoTransfer(c) && !c.mtvecInit && c.opEn && c.op == 1 && c.addr == addr && c.wdata == v
  }

  // ----- One edge, seen through the view -----

  /** The rule of each trap field, for write data `data`. */
  ghost predicate ViewRule(x: Ibex, m: Machine, c: Cycle, data: BitVec, next: TrapState) {
    && FieldRule(x, m, c, data, next.mie, x.mstatus, x.mie)
    && FieldRule(x, m, c, data, next.mpie, x.mstatus, x.mpie)
    && FieldRule(x, m, c, data, next.mpp, x.mstatus, x.mpp)
    && FieldRule(x, m, c, data, next.epc, x.mepc, x.epc)
    && next.priv == NextPriv(x, m, c)
  }

  lemma DirectData(d: Design, st: Store, c: Cycle)
    requires !c.mtvecInit && c.op == 1
    ensures CmdData(d, st, c) == c.wdata
  {
  }

  lemma ReturnPcRule(x: Ibex, m: Machine, c: Cycle)
    requires Fixture(x) && Sized(x.design.regs, m.csr)
    ensures var data, next := CmdData(x.design, m.csr, c), HybridStep(x, m, c).csr;
            FieldRule(x, m, c, data, Stored(next, x.mepc, x.epc), x.mepc, x.epc)
  {
    FieldStep(x, m, c, x.mepc, x.epc);
  }

  /** The four field rules and the privilege rule of one clock edge. */
  lemma ViewStep(x: Ibex, m: Machine, c: Cycle) returns (data: BitVec)
    requires Fixture(x) && Sized(x.design.regs, m.csr)
    ensures ViewRule(x, m, c, data, TrapStateOf(x, HybridStep(x, m, c)))
    ensures data == CmdData(x.design, m.csr, c)
    ensures !c.mtvecInit && c.op == 1 ==> data == c.wdata
  {
    data := CmdData(x.design, m.csr, c);
    if !c.mtvecInit && c.op == 1 { DirectData(x.design, m.csr, c); }
    StatusRules(x, m, c);
    ReturnPcRule(x, m, c);
  }

  lemma StatusRules(x: Ibex, m: Machine, c: Cycle)
    requires Fixture(x) && Sized(x.design.regs, m.csr)
    ensures var data, next := CmdData(x.design, m.csr, c), HybridStep(x, m, c).csr;
            && FieldRule(x, m, c, data, Stored(next, x.mstatus, x.mie), x.mstatus, x.mie)
            && FieldRule(x, m, c, data, Stored(next, x.mstatus, x.mpie), x.mstatus, x.mpie)
            && FieldRule(x, m, c, data, Stored(next, x.mstatus, x.mpp), x.mstatus, x.mpp)
  {
    FieldStep(x, m, c, x.mstatus, x.mie);
    FieldStep(x, m, c, x.mstatus, x.mpie);
    FieldStep(x, m, c, x.mstatus, x.mpp);
  }

  lemma QuietView(x: Ibex, m: Machine, c: Cycle, data: BitVec, next: TrapState)
    requires TrapRegisters(x) && ViewRule(x, m, c, data, next) && IsQuiet(c)
    ensures next == TrapStateOf(x, m)
  {
  }

  lemma EntryView(x: Ibex, m: Machine, c: Cycle, data: BitVec, next: TrapState)
    requires TrapRegisters(x) && ViewRule(x, m, c, data, next) && IsEntry(c)
    ensures next == TrapState([false], TrapStateOf(x, m).mie, m.priv, Aligned(ExceptionPc(c)), MACHINE)
  {
  }

  lemma ExitView(x: Ibex, m: Machine, c: Cycle, data: BitVec, next: TrapState)
    requires TrapRegisters(x) && ViewRule(x, m, c, data, next) && IsExit(c)
    ensures next == TrapState(TrapStateOf(x, m).mpie, [true], USER, TrapStateOf(x, m).epc, TrapStateOf(x, m).mpp)
  {
  }

  lemma StatusView(x: Ibex, m: Machine, c: Cycle, data: BitVec, next: TrapState)
    requires TrapRegisters(x) && ViewRule(x, m, c, data, next) && NoTransfer(c) && Writes(c, 0x300) && !Writes(c, 0x341)
    ensures next == TrapState(Slice(data, 3, 3), Slice(data, 7, 7), Slice(data, 12, 11), TrapStateOf(x, m).epc, m.priv)
  {
    LegaliseMpp(x.mpp, Slice(data, 12, 11));
  }

  lemma ReturnPcView(x: Ibex, m: Machine, c: Cycle, data: BitVec, next: TrapState)
    requires TrapRegisters(x) && ViewRule(x, m, c, data, next) && NoTransfer(c) && Writes(c, 0x341) && !Writes(c, 0x300)
    ensures next == TrapStateOf(x, m).(epc := Aligned(Slice(data, 31, 0)))
  {
    LegaliseEpc(x.epc, Slice(data, 31, 0));
  }

  // ----- The trap machine -----

  type TrapRun = nat -> TrapState

  /** What each cycle's CSR read returns. */
  type Seen = nat -> BitVec

  /** What a read of mstatus or mepc returns encodes exactly that register's part of the trap state. */
  ghost predicate Encodes(v: BitVec, addr: nat, w: TrapState) {
    && (addr == 0x300 ==> Slice(v, 3, 3) == w.mie && Slice(v, 7, 7) == w.mpie && Slice(v, 12, 11) == w.mpp)
    && (addr == 0x341 ==> Aligned(Slice(v, 31, 0)) == w.epc)
  }

  /** The effect of one cycle on the trap state, and what a read in that cycle shows of it. */
  ghost predicate TrapEdge(c: Cycle, v: TrapState, read: BitVec, next: TrapState) {
    && (IsQuiet(c) ==> next == v)
    && (NoTransfer(c) ==> next.priv == v.priv)
    && (IsEntry(c) ==> next == TrapState([false], v.mie, v.priv, Aligned(ExceptionPc(c)), MACHINE))
    && (IsExit(c) ==> next == TrapState(v.mpie, [true], USER, v.epc, v.mpp))
    && (IsRead(c, 0x300) ==> Encodes(read, 0x300, v))
    && (IsRead(c, 0x341) ==> Encodes(read, 0x341, v))
    && (IsWriteBack(c, 0x300, c.wdata) ==>
          next == TrapState(Slice(c.wdata, 3, 3), Slice(c.wdata, 7, 7), Slice(c.wdata, 12, 11), v.epc, v.priv))
    && (IsWriteBack(c, 0x341, c.wdata) ==> next == v.(epc := Aligned(Slice(c.wdata, 31, 0))))
  }

  ghost predicate TrapEdgeAt(run: CoreRun, vs: TrapRun, seen: Seen, t: nat) {
    TrapEdge(run(t), vs(t), seen(t), vs(t + 1))
  }

  /** A run of the trap machine. */
  ghost predicate IsTrapRun(run: CoreRun, vs: TrapRun, seen: Seen) {
    forall t: nat :: TrapEdgeAt(run, vs, seen, t)
  }

  lemma StatusRead(x: Ibex, st: Store)
    requires TrapRegisters(x) && Sized(x.design.regs, st)
    ensures Slice(ReadValue(32, st, x.mstatus), 3, 3) == Stored(st, x.mstatus, x.mie)
    ensures Slice(ReadValue(32, st, x.mstatus), 7, 7) == Stored(st, x.mstatus, x.mpie)
    ensures Slice(ReadValue(32, st, x.mstatus), 12, 11) == Stored(st, x.mstatus, x.mpp)
  {
    FieldView(x, st, x.mstatus, x.mie);
    FieldView(x, st, x.mstatus, x.mpie);
    FieldView(x, st, x.mstatus, x.mpp);
  }

  lemma ReturnPcRead(x: Ibex, st: Store)
    requires TrapRegisters(x) && Sized(x.design.regs, st) && !Bit(Stored(st, x.mepc, x.epc), 0)
    ensures Aligned(Slice(ReadValue(32, st, x.mepc), 31, 0)) == Stored(st, x.mepc, x.epc)
  {
    FieldView(x, st, x.mepc, x.epc);
    SizedAtEpc(x, st);
  }

  lemma SizedAtEpc(x: Ibex, st: Store)
    requires TrapRegisters(x) && Sized(x.design.regs, st)
    ensures |Stored(st, x.mepc, x.epc)| == 32
  {
    assert Ref(x.mepc, x.epc) in st;
  }

  lemma ReadBackIs(x: Ibex, st: Store, c: Cycle, r: Reg)
    requires x.design.xlen == 32 && DistinctAddresses(x.design.regs)
    requires r in x.design.regs && Owned(r.address) && IsRead(c, r.address)
    ensures ReadBack(x.design, st, c) == ReadValue(32, st, r)
  {
    CsrLaws.MuxSelects(x.design.regs, 32, st, r);
  }

  lemma ReadEncodes(x: Ibex, m: Machine, c: Cycle)
    requires Fixture(x) && Sized(x.design.regs, m.csr) && !Bit(Stored(m.csr, x.mepc, x.epc), 0)
    ensures IsRead(c, 0x300) ==> Encodes(ReadBack(x.design, m.csr, c), 0x300, TrapStateOf(x, m))
    ensures IsRead(c, 0x341) ==> Encodes(ReadBack(x.design, m.csr, c), 0x341, TrapStateOf(x, m))
  {
    if IsRead(c, 0x300) {
      ReadBackIs(x, m.csr, c, x.mstatus);
      StatusRead(x, m.csr);
    }
    if IsRead(c, 0x341) {
      ReadBackIs(x, m.csr, c, x.mepc);
      ReturnPcRead(x, m.csr);
    }
  }

  lemma RuleIsEdge(x: Ibex, m: Machine, c: Cycle, data: BitVec, read: BitVec, next: TrapState)
    requires TrapRegisters(x) && ViewRule(x, m, c, data, next)
    requires !c.mtvecInit && c.op == 1 ==> data == c.wdata
    requires IsRead(c, 0x300) ==> Encodes(read, 0x300, TrapStateOf(x, m))
    requires IsRead(c, 0x341) ==> Encodes(read, 0x341, TrapStateOf(x, m))
    ensures TrapEdge(c, TrapStateOf(x, m), read, next)
  {
    if IsQuiet(c) { QuietView(x, m, c, data, next); }
    if IsEntry(c) { EntryView(x, m, c, data, next); }
    if IsExit(c) { ExitView(x, m, c, data, next); }
    if IsWriteBack(c, 0x300, c.wdata) { StatusView(x, m, c, data, next); }
    if IsWriteBack(c, 0x341, c.wdata) { ReturnPcView(x, m, c, data, next); }
  }

  lemma EdgeHolds(x: Ibex, m: Machine, c: Cycle)
    requires Fixture(x) && Sized(x.design.regs, m.csr) && !Bit(Stored(m.csr, x.mepc, x.epc), 0)
    ensures TrapEdge(c, TrapStateOf(x, m), ReadBack(x.design, m.csr, c), TrapStateOf(x, HybridStep(x, m, c)))
  {
    var data := ViewStep(x, m, c);
    ReadEncodes(x, m, c);
    RuleIsEdge(x, m, c, data, ReadBack(x.design, m.csr, c), TrapStateOf(x, HybridStep(x, m, c)));
  }

  function TrapStates(x: Ibex, ms: Trace): TrapRun {
    (t: nat) => TrapStateOf(x, ms(t))
  }

  function ReadsOf(x: Ibex, run: CoreRun, ms: Trace): nat -> BitVec {
    (t: nat) => ReadBack(x.design, ms(t).csr, run(t))
  }

  lemma EdgeAt(x: Ibex, run: CoreRun, ms: Trace, t: nat)
    requires Fixture(x) && MachineInv(x, ms(t)) && StepsAt(x, run, ms, t)
    ensures TrapEdgeAt(run, TrapStates(x, ms), ReadsOf(x, run, ms), t)
  {
    EdgeHolds(x, ms(t), run(t));
  }

  /** Every run of the closed loop is a run of the trap machine. */
  lemma ClosedLoopIsTrapRun(x: Ibex, run: CoreRun, ms: Trace)
    requires Fixture(x) && IsRun(x, run, ms)
    ensures IsTrapRun(run, TrapStates(x, ms), ReadsOf(x, run, ms))
  {
    forall t: nat ensures TrapEdgeAt(run, TrapStates(x, ms), ReadsOf(x, run, ms), t) {
      InvAlways(x, run, ms, t);
      assert StepsAt(x, run, ms, t);
      EdgeAt(x, run, ms, t);
    }
  }
}
