/** The M-mode trap, counter and debug registers that the Ibex integration relies on. */
module IbexFixture {
  import opened Options
  import opened CsrDesign
  import opened CsrLaws
  import opened CsrTop

  /** A design together with the registers and fields the adapter names; it may hold any others beside them. */
  datatype Ibex = Ibex(
    design: Design,
    mstatus: Reg, mie: Field, mpie: Field, mpp: Field,
    mepc: Reg, epc: Field, mcause: Reg, cause: Field, mtval: Reg, tval: Field,
    mtvec: Reg, mode: Field, base: Field,
    mip: Reg, msip: Field, mtip: Field, meip: Field, mfip: Field,
    mcountinhibit: Reg, cy: Field, hpm: Field,
    dcsr: Reg, prv: Field)

  /** A register of the design at a given CSR address, with fields that do not overlap. */
  ghost predicate Csr(d: Design, r: Reg, address: nat) {
    r in d.regs && r.address == address && r.regwidth == 32 && WellPlaced(r)
  }

  ghost predicate At(r: Reg, f: Field, msb: nat, lsb: nat) {
    f in r.fields && f.msb == msb && f.lsb == lsb && f.swReadable && !f.wpri
  }

  /** Written by software and by hardware (`sw = rw; hw = rw`), with the given trap tags. */
  ghost predicate TrapField(r: Reg, f: Field, msb: nat, lsb: nat, save: bool, restore: bool, warl: Option<Warl>) {
    && At(r, f, msb, lsb) && f.swWritable && f.hwWritable && f.warl == warl
    && f.saveOnTrap == save && f.restoreOnRet == restore && !f.hwMirror && !f.Counter()
  }

  /** Written by software at most (`hw = r`), holding otherwise. */
  ghost predicate HeldField(r: Reg, f: Field, msb: nat, lsb: nat, swWrite: bool, reset: nat, warl: Option<Warl>) {
    At(r, f, msb, lsb) && f.swWritable == swWrite && SoftwareOnly(f) && f.reset == reset && f.warl == warl
  }

  ghost predicate MirrorField(r: Reg, f: Field, bit: nat) {
    At(r, f, bit, bit) && !f.swWritable && f.hwWritable && f.hwMirror
  }

  const EPC_MASK := 0xFFFFFFFE
  const BASE_MASK := 0x3FFFFFC0

  ghost predicate TrapRegisters(x: Ibex) {
    && Csr(x.design, x.mstatus, 0x300) && Csr(x.design, x.mepc, 0x341)
    && Csr(x.design, x.mcause, 0x342) && Csr(x.design, x.mtval, 0x343)
    && TrapField(x.mstatus, x.mie, 3, 3, false, true, None)
    && TrapField(x.mstatus, x.mpie, 7, 7, true, true, None)
    && TrapField(x.mstatus, x.mpp, 12, 11, true, true, Some(Mask(3)))
    && TrapField(x.mepc, x.epc, 31, 0, true, false, Some(Mask(EPC_MASK))) && x.epc.reset == 0
    && TrapField(x.mcause, x.cause, 31, 0, true, false, None)
    && TrapField(x.mtval, x.tval, 31, 0, true, false, None)
  }

  ghost predicate OtherRegisters(x: Ibex) {
    && Csr(x.design, x.mtvec, 0x305) && Csr(x.design, x.mip, 0x344)
    && Csr(x.design, x.mcountinhibit, 0x320) && Csr(x.design, x.dcsr, 0x7B0)
    && HeldField(x.mtvec, x.mode, 1, 0, false, 1, None)
    && HeldField(x.mtvec, x.base, 31, 2, true, 0, Some(Mask(BASE_MASK)))
    && HeldField(x.mcountinhibit, x.cy, 0, 0, true, 0, None)
    && HeldField(x.mcountinhibit, x.hpm, 12, 3, true, 0, None)
    && HeldField(x.dcsr, x.prv, 1, 0, true, 3, Some(Enum([0, 3])))
    && MirrorField(x.mip, x.msip, 3) && MirrorField(x.mip, x.mtip, 7)
    && MirrorField(x.mip, x.meip, 11) && MirrorField(x.mip, x.mfip, 16)
  }

  /** Every lifecycle tag of the design is on a field whose port the adapter connects. */
  ghost predicate Connected(x: Ibex, r: Reg, f: Field) {
    && (f.saveOnTrap ==>
          || (r == x.mepc && f == x.epc) || (r == x.mcause && f == x.cause) || (r == x.mtval && f == x.tval)
          || (r == x.mstatus && (f == x.mpie || f == x.mpp)))
    && (f.restoreOnRet ==> r == x.mstatus && (f == x.mie || f == x.mpie || f == x.mpp))
    && (f.hwMirror ==> r == x.mip && (f == x.msip || f == x.mtip || f == x.meip || f == x.mfip))
  }

  ghost predicate PortsConnected(x: Ibex) {
    forall r, f :: r in x.design.regs && f in r.fields ==> Connected(x, r, f)
  }

  ghost predicate Fixture(x: Ibex) {
    && x.design.xlen == 32 && Named(x.design)
    && DistinctAddresses(x.design.regs) && DistinctMembers(x.design)
    && TrapRegisters(x) && OtherRegisters(x) && PortsConnected(x)
  }
}
