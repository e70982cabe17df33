/** The closed loop around a generated CSR file: bus adapter, trap coordinator, live feedback and privilege register. */
module HybridMachine {
  import opened Bits
  import opened Options
  import opened CsrDesign
  import opened CsrLayout
  import opened CsrEmitter
  import opened CsrLaws
  import opened CsrTop
  import opened IbexFixture

  type Code = b: BitVec | |b| == 5 witness seq(5, i => false)

  const MACHINE: BitVec := [true, true]
  const USER: BitVec := [false, false]

  /** What the core presents in one cycle. */
  datatype Cycle = Cycle(
    opEn: bool, op: nat, addr: nat, wdata: Word,
    saveCause: bool, saveIf: bool, saveId: bool, saveWb: bool, pcIf: Word, pcId: Word, pcWb: Word,
    irqExt: bool, irqInt: bool, lowerCause: Code, tval: Word,
    mret: bool, dret: bool, mtvecInit: bool, bootAddr: Word,
    irqSoftware: bool, irqTimer: bool, irqExternal: bool, irqFast: bool, events: nat -> bool)

  datatype Machine = Machine(csr: Store, priv: BitVec)

  // ----- Bus adapter -----

  predicate Owned(addr: nat) {
    || addr in {0x340, 0x305, 0x341, 0x342, 0x343, 0x300, 0x304, 0x344, 0x320, 0xB00, 0xB80, 0x7B0, 0x7B1, 0x7B2, 0x7B3}
    || 0xB03 <= addr <= 0xB0C || 0xB83 <= addr <= 0xB8C || 0x323 <= addr <= 0x32C
  }

  predicate IsWriteOp(op: nat) { op == 1 || op == 2 || op == 3 }

  /** The reset-time trap vector: the boot address's upper bits, vectored mode. */
  function InitVector(boot: Word): Word {
    [true, false] + Zeros(6) + Slice(boot, 31, 8)
  }

  predicate CmdIssued(c: Cycle) {
    (c.opEn && Owned(c.addr)) || c.mtvecInit
  }

  function CmdAddr(c: Cycle): nat {
    if c.mtvecInit then 0x305 else c.addr
  }

  /** The value read back through the generated file in this cycle. */
  function ReadBack(d: Design, st: Store, c: Cycle): BitVec {
    if CmdIssued(c) then MuxFrom(d.regs, d.xlen, st, CmdAddr(c)) else Zeros(d.xlen)
  }

  function CmdData(d: Design, st: Store, c: Cycle): BitVec {
    if c.mtvecInit then InitVector(c.bootAddr) else Precomputed(c.op, c.wdata, ReadBack(d, st, c))
  }

  // ----- Counter enables -----

  /** Which counter an enable port belongs to. */
  function CounterOf(port: string): (n: Option<nat>)
    ensures n.Some? ==> n.value == 0 || 3 <= n.value <= 12
  {
    if port == "cycle_en" then Some(0)
    else if port == "hpm3_inc_en" then Some(3) else if port == "hpm4_inc_en" then Some(4)
    else if port == "hpm5_inc_en" then Some(5) else if port == "hpm6_inc_en" then Some(6)
    else if port == "hpm7_inc_en" then Some(7) else if port == "hpm8_inc_en" then Some(8)
    else if port == "hpm9_inc_en" then Some(9) else if port == "hpm10_inc_en" then Some(10)
    else if port == "hpm11_inc_en" then Some(11) else if port == "hpm12_inc_en" then Some(12)
    else None
  }

  /** The event of a counter: every cycle for counter 0. */
  predicate Event(c: Cycle, n: nat) { n == 0 || c.events(n) }

  /** An enable port: the counter's event, unless its bit of the packed mcountinhibit view is set. */
  predicate CountPort(x: Ibex, st: Store, c: Cycle, port: string) {
    var n := CounterOf(port);
    n.Some? && Event(c, n.value) && !Bit(ReadValue(32, st, x.mcountinhibit), n.value)
  }

  // ----- Trap coordinator wiring -----

  function ExceptionPc(c: Cycle): Word {
    if c.saveIf then c.pcIf else if c.saveId then c.pcId else if c.saveWb then c.pcWb else c.pcId
  }

  /** The same value with bit 0 clear. */
  function Aligned(v: BitVec): (r: BitVec)
    ensures |r| == |v|
  {
    if v == [] then [] else [false] + v[1..]
  }

  /** The program counter of the trapped stage, bit 0 cleared: fetch, else decode, else write-back, else decode. */
  ghost predicate HoldsTrappedPc(c: Cycle, saved: BitVec) {
    && (c.saveIf ==> saved == [false] + c.pcIf[1..])
    && (!c.saveIf && c.saveId ==> saved == [false] + c.pcId[1..])
    && (!c.saveIf && !c.saveId && c.saveWb ==> saved == [false] + c.pcWb[1..])
    && (!c.saveIf && !c.saveId && !c.saveWb ==> saved == [false] + c.pcId[1..])
  }

  /** That is what the adapter saves. */
  lemma TrappedPc(c: Cycle, saved: BitVec)
    ensures HoldsTrappedPc(c, saved) <==> saved == Aligned(ExceptionPc(c))
  {
  }

  function CauseWord(c: Cycle): Word {
    c.lowerCause + seq(26, k => c.irqInt) + [c.irqExt || c.irqInt]
  }

  function SavedValue(x: Ibex, m: Machine, c: Cycle, member: string): BitVec {
    if member == Member(x.mepc, x.epc) then Aligned(ExceptionPc(c))
    else if member == Member(x.mcause, x.cause) then CauseWord(c)
    else if member == Member(x.mtval, x.tval) then c.tval
    else if member == Member(x.mstatus, x.mpie) then Stored(m.csr, x.mstatus, x.mie)
    else if member == Member(x.mstatus, x.mpp) then m.priv
    else []
  }

  function RestoredValue(x: Ibex, m: Machine, member: string): BitVec {
    if member == Member(x.mstatus, x.mie) then Stored(m.csr, x.mstatus, x.mpie)
    else if member == Member(x.mstatus, x.mpie) then [true]
    else if member == Member(x.mstatus, x.mpp) then USER
    else []
  }

  function MirroredValue(x: Ibex, c: Cycle, member: string): BitVec {
    if member == Member(x.mip, x.msip) then [c.irqSoftware]
    else if member == Member(x.mip, x.mtip) then [c.irqTimer]
    else if member == Member(x.mip, x.meip) then [c.irqExternal]
    else if member == Member(x.mip, x.mfip) then [c.irqFast]
    else []
  }

  function TrapPort(x: Ibex, m: Machine, c: Cycle, p: PortName): BitVec {
    match p
    case SavePort(member) => SavedValue(x, m, c, member)
    case RestorePort(member) => RestoredValue(x, m, member)
    case MirrorPort(member) => MirroredValue(x, c, member)
  }

  /** The value passed when no trap or return takes over: hold, or clear `mie` on a trap; the rest is tied low. */
  function LiveValue(x: Ibex, m: Machine, c: Cycle, member: string): BitVec {
    if member == Member(x.mstatus, x.mie) then if c.saveCause then [false] else Stored(m.csr, x.mstatus, x.mie)
    else if member == Member(x.mstatus, x.mpie) then Stored(m.csr, x.mstatus, x.mpie)
    else if member == Member(x.mstatus, x.mpp) then Stored(m.csr, x.mstatus, x.mpp)
    else if member == Member(x.mepc, x.epc) then Stored(m.csr, x.mepc, x.epc)
    else if member == Member(x.mcause, x.cause) then Stored(m.csr, x.mcause, x.cause)
    else if member == Member(x.mtval, x.tval) then Stored(m.csr, x.mtval, x.tval)
    else Zeros(WidthOf(x.design.regs, member))
  }

  function Wiring(x: Ibex, m: Machine, c: Cycle): Coord {
    Coord(c.saveCause, c.mret, (p: PortName) => TrapPort(x, m, c, p), (member: string) => LiveValue(x, m, c, member))
  }

  function HybridInputs(x: Ibex, m: Machine, c: Cycle): Inputs {
    var wiring := Wiring(x, m, c);
    Inputs(
      CmdIssued(c), true, if c.mtvecInit || IsWriteOp(c.op) then 1 else 0, CmdAddr(c), CmdData(x.design, m.csr, c),
      (port: string) => CountPort(x, m.csr, c, port), (member: string) => Driven(CoordLines(x.design), wiring, member))
  }

  // ----- One clock edge -----

  function NextPriv(x: Ibex, m: Machine, c: Cycle): BitVec {
    if c.saveCause then MACHINE
    else if c.dret then Stored(m.csr, x.dcsr, x.prv)
    else if c.mret then Stored(m.csr, x.mstatus, x.mpp)
    else m.priv
  }

  function HybridStep(x: Ibex, m: Machine, c: Cycle): Machine {
    Machine(Clocked(SeqBlock(x.design), m.csr, HybridInputs(x, m, c)), NextPriv(x, m, c))
  }

  function HybridReset(x: Ibex): Machine {
    Machine(ResetStore(x.design), MACHINE)
  }

  /** The adapter's registers: the generated file's storage and the privilege level. */
  class Hybrid {
    const x: Ibex
    const file: CsrFile
    var priv: BitVec

    constructor (x: Ibex)
      ensures this.x == x && fresh(file) && file.program == SeqBlock(x.design) && View() == HybridReset(x)
    {
      this.x := x;
      file := new CsrFile(x.design, SeqBlock(x.design));
      priv := MACHINE;
    }

    function View(): Machine
      reads this, file
    {
      Machine(file.state, priv)
    }

    method Clock(c: Cycle)
      requires file.program == SeqBlock(x.design)
      modifies this, file
      ensures View() == HybridStep(x, old(View()), c)
    {
      var next := priv;
      if c.saveCause {
        next := MACHINE;
      } else if c.dret {
        next := Stored(file.state, x.dcsr, x.prv);
      } else if c.mret {
        next := Stored(file.state, x.mstatus, x.mpp);
      }
      file.Clock(HybridInputs(x, View(), c));
      priv := next;
    }
  }

  function MepcOut(x: Ibex, st: Store): BitVec {
    Stored(st, x.mepc, x.epc)
  }

  function MtvecOut(x: Ibex, st: Store): BitVec {
    Stored(st, x.mtvec, x.mode) + Stored(st, x.mtvec, x.base)
  }

  // ----- What the wiring drives -----

  /** What a hardware-writable field is driven to when no bus write hits it. */
  function Expected(x: Ibex, m: Machine, c: Cycle, r: Reg, f: Field): BitVec {
    if r == x.mstatus && f == x.mie then
      if c.mret then Stored(m.csr, r, x.mpie) else if c.saveCause then [false] else Stored(m.csr, r, f)
    else if r == x.mstatus && f == x.mpie then
      if c.saveCause then Stored(m.csr, r, x.mie) else if c.mret then [true] else Stored(m.csr, r, f)
    else if r == x.mstatus && f == x.mpp then
      if c.saveCause then m.priv else if c.mret then USER else Stored(m.csr, r, f)
    else if r == x.mepc && f == x.epc then
      if c.saveCause then Aligned(ExceptionPc(c)) else Stored(m.csr, r, f)
    else if r == x.mcause && f == x.cause then
      if c.saveCause then CauseWord(c) else Stored(m.csr, r, f)
    else if r == x.mtval && f == x.tval then
      if c.saveCause then c.tval else Stored(m.csr, r, f)
    else if f.hwMirror then MirroredValue(x, c, Member(r, f))
    else Zeros(f.Width())
  }

  lemma Tracked(x: Ibex)
    requires Fixture(x)
    ensures IsMember(x.design, x.mstatus, x.mie) && IsMember(x.design, x.mstatus, x.mpie)
    ensures IsMember(x.design, x.mstatus, x.mpp) && IsMember(x.design, x.mepc, x.epc)
    ensures IsMember(x.design, x.mcause, x.cause) && IsMember(x.design, x.mtval, x.tval)
  {
  }

  /** Distinct members have distinct names. */
  lemma OtherMember(x: Ibex, r: Reg, f: Field, q: Reg, g: Field)
    requires Fixture(x) && IsMember(x.design, r, f) && IsMember(x.design, q, g)
    ensures Member(r, f) == Member(q, g) <==> r == q && f == g
  {
  }

  /** The field's member name is none of the tracked ones but its own. */
  ghost predicate NamesApart(x: Ibex, r: Reg, f: Field) {
    && (Member(r, f) == Member(x.mstatus, x.mie) <==> r == x.mstatus && f == x.mie)
    && (Member(r, f) == Member(x.mstatus, x.mpie) <==> r == x.mstatus && f == x.mpie)
    && (Member(r, f) == Member(x.mstatus, x.mpp) <==> r == x.mstatus && f == x.mpp)
    && (Member(r, f) == Member(x.mepc, x.epc) <==> r == x.mepc && f == x.epc)
    && (Member(r, f) == Member(x.mcause, x.cause) <==> r == x.mcause && f == x.cause)
    && (Member(r, f) == Member(x.mtval, x.tval) <==> r == x.mtval && f == x.tval)
  }

  lemma MemberNames(x: Ibex, r: Reg, f: Field)
    requires Fixture(x) && IsMember(x.design, r, f)
    ensures NamesApart(x, r, f)
  {
    Tracked(x);
    OtherMember(x, r, f, x.mstatus, x.mie);
    OtherMember(x, r, f, x.mstatus, x.mpie);
    OtherMember(x, r, f, x.mstatus, x.mpp);
    OtherMember(x, r, f, x.mepc, x.epc);
    OtherMember(x, r, f, x.mcause, x.cause);
    OtherMember(x, r, f, x.mtval, x.tval);
  }

  predicate IsTracked(x: Ibex, r: Reg, f: Field) {
    || (r == x.mstatus && (f == x.mie || f == x.mpie || f == x.mpp))
    || (r == x.mepc && f == x.epc) || (r == x.mcause && f == x.cause) || (r == x.mtval && f == x.tval)
  }

  /** A mirror passes its wire. */
  lemma MirrorMux(x: Ibex, m: Machine, c: Cycle, r: Reg, f: Field)
    requires f.hwMirror
    ensures TrapMux(r, f, Wiring(x, m, c)) == MirroredValue(x, c, Member(r, f))
  {
  }

  /** A field without tags passes its live value, which is tied low. */
  lemma PlainMux(x: Ibex, m: Machine, c: Cycle, r: Reg, f: Field)
    requires NamesApart(x, r, f) && !IsTracked(x, r, f) && WidthOf(x.design.regs, Member(r, f)) == f.Width()
    requires !f.hwMirror && !f.saveOnTrap && !f.restoreOnRet
    ensures TrapMux(r, f, Wiring(x, m, c)) == Zeros(f.Width())
  {
  }

  lemma UntrackedMux(x: Ibex, m: Machine, c: Cycle, r: Reg, f: Field)
    requires Fixture(x) && IsMember(x.design, r, f) && NamesApart(x, r, f) && !IsTracked(x, r, f)
    ensures TrapMux(r, f, Wiring(x, m, c)) == if f.hwMirror then MirroredValue(x, c, Member(r, f)) else Zeros(f.Width())
  {
    assert Connected(x, r, f);
    if f.hwMirror {
      MirrorMux(x, m, c, r, f);
    } else {
      WidthFound(x.design, x.design.regs, r, f);
      PlainMux(x, m, c, r, f);
    }
  }

  /** The three mstatus fields, by trap, return and neither. */
  lemma StatusMux(x: Ibex, m: Machine, c: Cycle, f: Field)
    requires TrapRegisters(x) && NamesApart(x, x.mstatus, f) && (f == x.mie || f == x.mpie || f == x.mpp)
    ensures TrapMux(x.mstatus, f, Wiring(x, m, c)) == Expected(x, m, c, x.mstatus, f)
  {
  }

  lemma SavedMux(x: Ibex, m: Machine, c: Cycle, r: Reg, f: Field)
    requires TrapRegisters(x) && NamesApart(x, r, f)
    requires (r == x.mepc && f == x.epc) || (r == x.mcause && f == x.cause) || (r == x.mtval && f == x.tval)
    ensures TrapMux(r, f, Wiring(x, m, c)) == Expected(x, m, c, r, f)
  {
  }

  lemma MuxIsExpected(x: Ibex, m: Machine, c: Cycle, r: Reg, f: Field)
    requires Fixture(x) && IsMember(x.design, r, f)
    ensures TrapMux(r, f, Wiring(x, m, c)) == Expected(x, m, c, r, f)
  {
    MemberNames(x, r, f);
    if r == x.mstatus && (f == x.mie || f == x.mpie || f == x.mpp) {
      StatusMux(x, m, c, f);
    } else if IsTracked(x, r, f) {
      SavedMux(x, m, c, r, f);
    } else {
      UntrackedMux(x, m, c, r, f);
    }
  }

  /** With the coordinator's lines and the adapter's wiring composed, every member gets its expected value. */
  lemma DrivenIsExpected(x: Ibex, m: Machine, c: Cycle, r: Reg, f: Field)
    requires Fixture(x) && IsMember(x.design, r, f)
    ensures HybridInputs(x, m, c).hwif(Member(r, f)) == Expected(x, m, c, r, f)
  {
    CoordinatorCorrect(x.design, r, f, Wiring(x, m, c));
    MuxIsExpected(x, m, c, r, f);
  }
}
