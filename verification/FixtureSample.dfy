/** The integration's hypotheses can be met: a design with just the registers they name meets them all. */
module FixtureSample {
  import opened Bits
  import opened Options
  import opened CsrDesign
  import opened CsrLaws
  import opened CsrTop
  import opened IbexFixture
  import opened CsrCounters
  import opened HybridMachine
  import opened HybridInvariants

  function Rw(name: string, msb: nat, lsb: nat, save: bool, restore: bool, warl: Option<Warl>): Field {
    Field(name, msb, lsb, true, true, true, true, 0, false, warl, None, None, save, restore, false, None, None)
  }

  function Held(name: string, msb: nat, lsb: nat, swWrite: bool, reset: nat, warl: Option<Warl>): Field {
    Field(name, msb, lsb, true, swWrite, true, false, reset, false, warl, None, None, false, false, false, None, None)
  }

  function Mirror(name: string, bit: nat): Field {
    Field(name, bit, bit, true, false, true, true, 0, false, None, None, None, false, false, true, None, None)
  }

  function Make(name: string, address: nat, fields: seq<Field>): Reg {
    Reg(name, address, 32, false, fields, Some("m"), None)
  }

  const MSTATUS: Reg := Make("mstatus", 0x300, [
    Rw("mie", 3, 3, false, true, None), Rw("mpie", 7, 7, true, true, None),
    Rw("mpp", 12, 11, true, true, Some(Mask(3)))])
  const MEPC: Reg := Make("mepc", 0x341, [Rw("epc", 31, 0, true, false, Some(Mask(EPC_MASK)))])
  const MCAUSE: Reg := Make("mcause", 0x342, [Rw("cause", 31, 0, true, false, None)])
  const MTVAL: Reg := Make("mtval", 0x343, [Rw("tval", 31, 0, true, false, None)])
  const MTVEC: Reg := Make("mtvec", 0x305, [
    Held("mode", 1, 0, false, 1, None), Held("base", 31, 2, true, 0, Some(Mask(BASE_MASK)))])
  const MIP: Reg := Make("mip", 0x344, [Mirror("msip", 3), Mirror("mtip", 7), Mirror("meip", 11), Mirror("mfip_0", 16)])
  const MCOUNTINHIBIT: Reg := Make("mcountinhibit", 0x320, [
    Held("cy", 0, 0, true, 0, None), Held("hpm", 12, 3, true, 0, None)])
  const DCSR: Reg := Make("dcsr", 0x7B0, [Held("prv", 1, 0, true, 3, Some(Enum([0, 3])))])

  const MCYCLE: Reg := Make("mcycle", 0xB00, [
    Held("value", 31, 0, true, 0, None).(incrementWhen := Some("cycle_en"))])
  const MCYCLEH: Reg := Make("mcycleh", 0xB80, [
    Held("value", 31, 0, true, 0, None).(incrementHighOf := Some("mcycle"))])

  const REGS: seq<Reg> := [MSTATUS, MEPC, MCAUSE, MTVAL, MTVEC, MIP, MCOUNTINHIBIT, DCSR, MCYCLE, MCYCLEH]

  function Sample(): Ibex {
    Ibex(
      Design(32, REGS),
      MSTATUS, MSTATUS.fields[0], MSTATUS.fields[1], MSTATUS.fields[2],
      MEPC, MEPC.fields[0], MCAUSE, MCAUSE.fields[0], MTVAL, MTVAL.fields[0],
      MTVEC, MTVEC.fields[0], MTVEC.fields[1],
      MIP, MIP.fields[0], MIP.fields[1], MIP.fields[2], MIP.fields[3],
      MCOUNTINHIBIT, MCOUNTINHIBIT.fields[0], MCOUNTINHIBIT.fields[1], DCSR, DCSR.fields[0])
  }

  const NAMES: seq<string> := [
    "mstatus", "mepc", "mcause", "mtval", "mtvec", "mip", "mcountinhibit", "dcsr", "mcycle", "mcycleh"]

  lemma NamesDiffer()
    ensures forall i, j :: 0 <= i < j < |NAMES| ==> NAMES[i] != NAMES[j]
    ensures forall i :: 0 <= i < |NAMES| ==> '_' !in NAMES[i]
  {
    assert |NAMES[0]| == 7 && |NAMES[1]| == 4 && |NAMES[2]| == 6 && |NAMES[3]| == 5;
    assert |NAMES[4]| == 5 && |NAMES[5]| == 3 && |NAMES[6]| == 13 && |NAMES[7]| == 4;
    assert |NAMES[8]| == 6 && |NAMES[9]| == 7 && NAMES[8][2] == 'y' && NAMES[9][1] == 'c';
    assert NAMES[2][2] == 'a' && NAMES[0][1] == 's';
    assert NAMES[1][0] == 'm' && NAMES[7][0] == 'd' && NAMES[3][3] == 'a' && NAMES[4][3] == 'e';
  }

  lemma RegNames(i: nat)
    requires i < |REGS|
    ensures |REGS| == |NAMES| && REGS[i].name == NAMES[i]
  {
  }

  lemma FieldNames(i: nat)
    requires i < |REGS|
    ensures DistinctFields(REGS[i].fields)
  {
    if i == 0 {
      assert |REGS[0].fields[0].name| == 3 && |REGS[0].fields[1].name| == 4 && REGS[0].fields[2].name[1] == 'p';
    }
  }

  lemma Addresses()
    ensures DistinctAddresses(REGS)
  {
  }

  /** Fields listed upwards without overlap. */
  predicate Climbs(fields: seq<Field>) {
    forall k :: 0 <= k < |fields| ==>
      fields[k].lsb <= fields[k].msb < 32 && (k + 1 < |fields| ==> fields[k].msb < fields[k + 1].lsb)
  }

  lemma {:induction false} ClimbsApart(fields: seq<Field>, i: nat, j: nat)
    requires Climbs(fields) && i < j < |fields|
    ensures fields[i].msb < fields[j].lsb
  {
    if i + 1 < j { ClimbsApart(fields, i, j - 1); }
    assert fields[j - 1].lsb <= fields[j - 1].msb < fields[j].lsb;
  }

  lemma Climbing(i: nat)
    requires i < |REGS|
    ensures Climbs(REGS[i].fields) && REGS[i].regwidth == 32
  {
  }

  lemma ClimbingPlaced(r: Reg)
    requires Climbs(r.fields) && r.regwidth == 32
    ensures WellPlaced(r)
  {
    forall a, b | 0 <= a < b < |r.fields| ensures Disjoint(r.fields[a], r.fields[b]) { ClimbsApart(r.fields, a, b); }
  }

  lemma Places(i: nat)
    requires i < |REGS|
    ensures WellPlaced(REGS[i]) && REGS[i].regwidth == 32
  {
    Climbing(i);
    ClimbingPlaced(REGS[i]);
  }

  /** Distinct plain names, given one by one, name a design. */
  lemma NamedBy(regs: seq<Reg>, names: seq<string>)
    requires |regs| == |names| && forall i :: 0 <= i < |regs| ==> regs[i].name == names[i]
    requires forall i, j :: 0 <= i < j < |names| ==> names[i] != names[j]
    requires forall i :: 0 <= i < |names| ==> '_' !in names[i]
    requires forall i :: 0 <= i < |regs| ==> DistinctFields(regs[i].fields) && WellPlaced(regs[i])
    ensures Named(Design(32, regs)) && DistinctMembers(Design(32, regs))
  {
    PlainNamesSuffice(Design(32, regs));
  }

  lemma NamedSample()
    ensures Named(Sample().design) && DistinctMembers(Sample().design)
  {
    NamesDiffer();
    RegNames(0);
    forall i | 0 <= i < |REGS|
      ensures REGS[i].name == NAMES[i] && DistinctFields(REGS[i].fields) && WellPlaced(REGS[i])
    {
      RegNames(i);
      FieldNames(i);
      Places(i);
    }
    NamedBy(REGS, NAMES);
  }

  lemma ConnectedAt(i: nat, f: Field)
    requires i < |REGS| && f in REGS[i].fields
    ensures Connected(Sample(), REGS[i], f)
  {
  }

  lemma InSample(i: nat)
    requires i < |REGS|
    ensures Csr(Sample().design, REGS[i], REGS[i].address)
  {
    Places(i);
  }

  lemma StatusFields()
    ensures TrapField(MSTATUS, MSTATUS.fields[0], 3, 3, false, true, None)
    ensures TrapField(MSTATUS, MSTATUS.fields[1], 7, 7, true, true, None)
    ensures TrapField(MSTATUS, MSTATUS.fields[2], 12, 11, true, true, Some(Mask(3)))
  {
  }

  lemma SavedFields()
    ensures TrapField(MEPC, MEPC.fields[0], 31, 0, true, false, Some(Mask(EPC_MASK))) && MEPC.fields[0].reset == 0
    ensures TrapField(MCAUSE, MCAUSE.fields[0], 31, 0, true, false, None)
    ensures TrapField(MTVAL, MTVAL.fields[0], 31, 0, true, false, None)
  {
  }

  lemma TrapCsrs()
    ensures Csr(Sample().design, MSTATUS, 0x300) && Csr(Sample().design, MEPC, 0x341)
    ensures Csr(Sample().design, MCAUSE, 0x342) && Csr(Sample().design, MTVAL, 0x343)
  {
    InSample(0);
    InSample(1);
    InSample(2);
    InSample(3);
  }

  lemma TrapRegistersMet()
    ensures TrapRegisters(Sample())
  {
    TrapCsrs();
    StatusFields();
    SavedFields();
  }

  lemma HeldFields()
    ensures HeldField(MTVEC, MTVEC.fields[0], 1, 0, false, 1, None)
    ensures HeldField(MTVEC, MTVEC.fields[1], 31, 2, true, 0, Some(Mask(BASE_MASK)))
    ensures HeldField(MCOUNTINHIBIT, MCOUNTINHIBIT.fields[0], 0, 0, true, 0, None)
    ensures HeldField(MCOUNTINHIBIT, MCOUNTINHIBIT.fields[1], 12, 3, true, 0, None)
    ensures HeldField(DCSR, DCSR.fields[0], 1, 0, true, 3, Some(Enum([0, 3])))
  {
  }

  lemma MirrorFields()
    ensures MirrorField(MIP, MIP.fields[0], 3) && MirrorField(MIP, MIP.fields[1], 7)
    ensures MirrorField(MIP, MIP.fields[2], 11) && MirrorField(MIP, MIP.fields[3], 16)
  {
  }

  lemma OtherRegistersMet()
    ensures OtherRegisters(Sample())
  {
    InSample(4);
    InSample(5);
    InSample(6);
    InSample(7);
    HeldFields();
    MirrorFields();
  }

  // ----- The cycle counter of the sample -----

  lemma PlainAccepted(d: Design, i: nat, f: Field)
    requires i < |REGS| && f in REGS[i].fields && i != 9
    ensures AcceptedField(d, f)
  {
  }

  lemma LowRegister(d: Design)
    requires Named(d) && MCYCLE in d.regs
    ensures FindReg(d.regs, MCYCLE.name) == Some(MCYCLE) && CounterFields(MCYCLE.fields) == [MCYCLE.fields[0]]
  {
    FindRegByName(d.regs, MCYCLE);
    assert MCYCLE.fields[1..] == [];
  }

  lemma HighAccepted(d: Design)
    requires Named(d) && MCYCLE in d.regs
    ensures AcceptedField(d, MCYCLEH.fields[0])
  {
    LowRegister(d);
  }

  lemma FieldsAccepted(d: Design, i: nat)
    requires Named(d) && MCYCLE in d.regs && i < |REGS|
    ensures forall f :: f in REGS[i].fields ==> AcceptedField(d, f)
  {
    forall f | f in REGS[i].fields ensures AcceptedField(d, f) {
      if i == 9 { HighAccepted(d); } else { PlainAccepted(d, i, f); }
    }
  }

  lemma Widths(i: nat)
    requires i < |REGS|
    ensures REGS[i].regwidth == 32 && !REGS[i].isArray && PrivOk(REGS[i].priv)
  {
  }

  ghost predicate AcceptedReg(d: Design, r: Reg) {
    r.regwidth == 32 && !r.isArray && PrivOk(r.priv) && forall f :: f in r.fields ==> AcceptedField(d, f)
  }

  lemma AcceptedBy(d: Design)
    requires d.xlen == 32 && forall i :: 0 <= i < |d.regs| ==> AcceptedReg(d, d.regs[i])
    ensures Validate(d).None?
  {
    ValidateExact(d);
  }

  lemma Validates(d: Design)
    requires d.xlen == 32 && Named(d) && d.regs == REGS
    ensures Validate(d).None?
  {
    assert REGS[8] == MCYCLE;
    forall i | 0 <= i < |REGS| ensures AcceptedReg(d, REGS[i]) {
      Widths(i);
      FieldsAccepted(d, i);
    }
    AcceptedBy(d);
  }

  function CyclePair(): Pair {
    Pair(MCYCLE, MCYCLE.fields[0], MCYCLEH, MCYCLEH.fields[0])
  }

  lemma PortsMet()
    ensures PortsConnected(Sample())
  {
    forall r, f | r in REGS && f in r.fields ensures Connected(Sample(), r, f) {
      var i :| 0 <= i < |REGS| && REGS[i] == r;
      ConnectedAt(i, f);
    }
  }

  lemma PairLinked(d: Design, p: Pair)
    requires d.xlen == 32 && Named(d) && d.regs == REGS && p == CyclePair()
    ensures Linked(d, p)
  {
    assert REGS[8] == MCYCLE && REGS[9] == MCYCLEH;
    Validates(d);
  }

  lemma CountsCycles(x: Ibex, p: Pair)
    requires Linked(x.design, p) && p == CyclePair()
    ensures CounterPair(x, p, 0)
  {
  }

  /** The sample meets the fixture's hypotheses, and its mcycle and mcycleh those of a counter pair. */
  lemma FixtureIsMet() returns (x: Ibex, p: Pair)
    ensures Fixture(x) && CounterPair(x, p, 0)
  {
    x, p := Sample(), CyclePair();
    NamedSample();
    Addresses();
    TrapRegistersMet();
    OtherRegistersMet();
    PortsMet();
    PairLinked(x.design, p);
    CountsCycles(x, p);
  }

  /** A cycle that may trap the instruction at address 0, return, and write `data` to the CSR at an address. */
  function Presents(trap: bool, ret: bool, write: Option<nat>, data: Word): Cycle {
    Cycle(
      write.Some?, if write.Some? then 1 else 0, if write.Some? then write.value else 0, data,
      trap, false, trap, false, Zeros(32), Zeros(32), Zeros(32), false, false, Zeros(5), Zeros(32),
      ret, false, false, Zeros(32), false, false, false, false, (n: nat) => false)
  }
}
