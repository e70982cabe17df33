/** mstatus, mepc and the privilege over runs: bus writes against traps and returns, and which privileges occur. */
module StatusLaws {
  import opened Bits
  import opened Counting
  import opened CsrLayout
  import opened CsrCorrect
  import opened IbexFixture
  import opened HybridMachine
  import opened HybridInvariants
  import opened TrapMachine

  // ----- Bus writes in the cycle of a trap or a return -----

  /** The status bits after a cycle with these values to save or restore, when the command carries `data`. */
  ghost predicate StatusAfter(c: Cycle, data: BitVec, mie: BitVec, mpie: BitVec, mpp: BitVec, next: TrapState) {
    if Writes(c, 0x300) then
      next.mie == Slice(data, 3, 3) && next.mpie == Slice(data, 7, 7) && next.mpp == Slice(data, 12, 11)
    else
      next.mie == mie && next.mpie == mpie && next.mpp == mpp
  }

  /** The trap state after a trap at `c`. */
  ghost predicate AfterTrap(c: Cycle, data: BitVec, v: TrapState, next: TrapState) {
    && StatusAfter(c, data, if c.mret then v.mpie else [false], v.mie, v.priv, next)
    && (if Writes(c, 0x341) then next.epc == Aligned(data) else HoldsTrappedPc(c, next.epc))
    && next.priv == MACHINE
  }

  /** The trap state after a return at `c`; `prv` is the privilege that a debug return restores. */
  ghost predicate AfterReturn(c: Cycle, data: BitVec, v: TrapState, prv: BitVec, next: TrapState) {
    && StatusAfter(c, data, v.mpie, [true], USER, next)
    && next.epc == (if Writes(c, 0x341) then Aligned(data) else v.epc)
    && next.priv == if c.dret then prv else v.mpp
  }

  lemma WrittenStatus(x: Ibex, data: BitVec)
    requires TrapRegisters(x) && |data| == 32
    ensures Legalise(x.mpp, Slice(data, 12, 11)) == Slice(data, 12, 11)
  {
    LegaliseMpp(x.mpp, Slice(data, 12, 11));
  }

  lemma WrittenReturnPc(x: Ibex, data: BitVec)
    requires TrapRegisters(x) && |data| == 32
    ensures Legalise(x.epc, Slice(data, 31, 0)) == Aligned(data)
  {
    WholeWord(data);
    LegaliseEpc(x.epc, data);
  }

  lemma StatusOnTransfer(x: Ibex, m: Machine, c: Cycle, data: BitVec, next: TrapState)
    requires TrapRegisters(x) && ViewRule(x, m, c, data, next) && |data| == 32
    ensures var v := TrapStateOf(x, m);
            && (c.saveCause ==> StatusAfter(c, data, if c.mret then v.mpie else [false], v.mie, v.priv, next))
            && (c.mret && !c.saveCause ==> StatusAfter(c, data, v.mpie, [true], USER, next))
  {
    WrittenStatus(x, data);
  }

  lemma ReturnPcWritten(x: Ibex, m: Machine, c: Cycle, data: BitVec, next: TrapState)
    requires TrapRegisters(x) && ViewRule(x, m, c, data, next) && |data| == 32 && Writes(c, 0x341)
    ensures next.epc == Aligned(data)
  {
    WrittenReturnPc(x, data);
  }

  lemma ReturnPcUnwritten(x: Ibex, m: Machine, c: Cycle, data: BitVec, next: TrapState)
    requires TrapRegisters(x) && ViewRule(x, m, c, data, next) && !Writes(c, 0x341)
    ensures next.epc == if c.saveCause then Aligned(ExceptionPc(c)) else TrapStateOf(x, m).epc
  {
  }

  lemma ReturnPcOnTransfer(x: Ibex, m: Machine, c: Cycle, data: BitVec, next: TrapState)
    requires TrapRegisters(x) && ViewRule(x, m, c, data, next) && |data| == 32
    ensures next.epc
         == if Writes(c, 0x341) then Aligned(data)
            else if c.saveCause then Aligned(ExceptionPc(c)) else TrapStateOf(x, m).epc
  {
    if Writes(c, 0x341) { ReturnPcWritten(x, m, c, data, next); } else { ReturnPcUnwritten(x, m, c, data, next); }
  }

  lemma TrapView(x: Ibex, m: Machine, c: Cycle, data: BitVec, next: TrapState)
    requires TrapRegisters(x) && ViewRule(x, m, c, data, next) && c.saveCause && |data| == 32
    ensures AfterTrap(c, data, TrapStateOf(x, m), next)
  {
    TrappedPc(c, next.epc);
    StatusOnTransfer(x, m, c, data, next);
    ReturnPcOnTransfer(x, m, c, data, next);
  }

  lemma ReturnView(x: Ibex, m: Machine, c: Cycle, data: BitVec, next: TrapState)
    requires TrapRegisters(x) && ViewRule(x, m, c, data, next) && c.mret && !c.saveCause && |data| == 32
    ensures AfterReturn(c, data, TrapStateOf(x, m), Stored(m.csr, x.dcsr, x.prv), next)
  {
    StatusOnTransfer(x, m, c, data, next);
    ReturnPcOnTransfer(x, m, c, data, next);
  }

  /** The rule of the trap fields over runs. */
  lemma ViewAt(x: Ibex, run: CoreRun, ms: Trace, t: nat)
    requires Fixture(x) && IsRun(x, run, ms)
    ensures ViewRule(x, ms(t), run(t), BusData(x, run, ms, t), TrapStates(x, ms)(t + 1))
    ensures |BusData(x, run, ms, t)| == 32
  {
    InvAlways(x, run, ms, t);
    assert StepsAt(x, run, ms, t);
    CommandWidth(x.design, ms(t).csr, run(t));
    var data := ViewStep(x, ms(t), run(t));
  }

  /**
   * In every trap cycle of every run: a bus write that lands in that cycle leaves the written status bits and the
   * written address, aligned; without one the trap's values are saved. The privilege is M either way.
   */
  lemma BusWinsOverTrap(x: Ibex, run: CoreRun, ms: Trace, t: nat)
    requires Fixture(x) && IsRun(x, run, ms) && run(t).saveCause
    ensures AfterTrap(run(t), BusData(x, run, ms, t), TrapStates(x, ms)(t), TrapStates(x, ms)(t + 1))
  {
    ViewAt(x, run, ms, t);
    TrapView(x, ms(t), run(t), BusData(x, run, ms, t), TrapStates(x, ms)(t + 1));
  }

  /** In every trap cycle without a bus write to mepc, mepc takes the program counter of the trapped stage. */
  lemma TrapSavesPc(x: Ibex, run: CoreRun, ms: Trace, t: nat)
    requires Fixture(x) && IsRun(x, run, ms) && run(t).saveCause && !Writes(run(t), 0x341)
    ensures HoldsTrappedPc(run(t), MepcOut(x, ms(t + 1).csr))
  {
    BusWinsOverTrap(x, run, ms, t);
  }

  /** The same in every cycle of a return: the written status bits stay, else the saved ones are restored. */
  lemma BusWinsOverReturn(x: Ibex, run: CoreRun, ms: Trace, t: nat)
    requires Fixture(x) && IsRun(x, run, ms) && run(t).mret && !run(t).saveCause
    ensures AfterReturn(
      run(t), BusData(x, run, ms, t), TrapStates(x, ms)(t), Stored(ms(t).csr, x.dcsr, x.prv), TrapStates(x, ms)(t + 1))
  {
    ViewAt(x, run, ms, t);
    ReturnView(x, ms(t), run(t), BusData(x, run, ms, t), TrapStates(x, ms)(t + 1));
  }

  // ----- Which privileges occur -----

  /** The running and the saved privilege are U or M. */
  ghost predicate LegalPrivilege(v: TrapState) {
    PrvOk(v.priv) && PrvOk(v.mpp)
  }

  ghost predicate LegalStatusWrite(c: Cycle, data: BitVec) {
    Writes(c, 0x300) ==> PrvOk(Slice(data, 12, 11))
  }

  /** The cycles in which both privileges are legal. */
  ghost function PrivilegesLegal(x: Ibex, ms: Trace): nat -> bool {
    (t: nat) => LegalPrivilege(TrapStateOf(x, ms(t)))
  }

  /** The cycles in which a word written to mstatus, if any, names a legal privilege. */
  ghost function StatusWritesLegal(x: Ibex, run: CoreRun, ms: Trace): nat -> bool {
    (t: nat) => LegalStatusWrite(run(t), BusData(x, run, ms, t))
  }

  lemma PrivilegeView(x: Ibex, m: Machine, c: Cycle, data: BitVec, next: TrapState)
    requires TrapRegisters(x) && ViewRule(x, m, c, data, next) && |data| == 32
    requires LegalPrivilege(TrapStateOf(x, m)) && PrvOk(Stored(m.csr, x.dcsr, x.prv))
    ensures LegalPrivilege(next) <==> LegalStatusWrite(c, data)
  {
    WrittenStatus(x, data);
  }

  lemma PrivilegeStep(x: Ibex, run: CoreRun, ms: Trace, t: nat)
    requires Fixture(x) && IsRun(x, run, ms)
    ensures DecidedAt(PrivilegesLegal(x, ms), StatusWritesLegal(x, run, ms), t)
  {
    if LegalPrivilege(TrapStateOf(x, ms(t))) {
      ViewAt(x, run, ms, t);
      InvAlways(x, run, ms, t);
      PrivilegeView(x, ms(t), run(t), BusData(x, run, ms, t), TrapStates(x, ms)(t + 1));
    }
  }

  lemma PrivilegeReset(x: Ibex, run: CoreRun, ms: Trace)
    requires Fixture(x) && IsRun(x, run, ms)
    ensures PrivilegesLegal(x, ms)(0) <==> PrvOk(FromNat(x.mpp.reset, 2))
  {
    ResetStored(x.design, x.mstatus, x.mpp);
  }

  /**
   * The mask of mpp admits all four values, so software can make mpp, and through a return the running privilege,
   * one that does not exist. Both are U or M in all states of a run up to `t` if and only if the reset value of mpp
   * is, and so are the mpp bits of every word written to mstatus before `t`.
   */
  lemma PrivilegeLegalIff(x: Ibex, run: CoreRun, ms: Trace, t: nat)
    requires Fixture(x) && IsRun(x, run, ms)
    ensures (forall u: nat :: u <= t ==> PrivilegesLegal(x, ms)(u))
            <==> PrvOk(FromNat(x.mpp.reset, 2)) && forall u: nat :: u < t ==> StatusWritesLegal(x, run, ms)(u)
  {
    PrivilegeReset(x, run, ms);
    forall u: nat ensures DecidedAt(PrivilegesLegal(x, ms), StatusWritesLegal(x, run, ms), u) {
      PrivilegeStep(x, run, ms, u);
    }
    GoodUpTo(PrivilegesLegal(x, ms), StatusWritesLegal(x, run, ms), t);
  }
}
