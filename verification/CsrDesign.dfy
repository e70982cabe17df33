/** The flat CSR design model, and the validator that guards the emitters. */
module CsrDesign {
  import opened Options

  datatype Warl = Mask(mask: nat) | Enum(legal: seq<nat>)

  datatype Field = Field(
    name: string, msb: nat, lsb: nat,
    swReadable: bool, swWritable: bool, hwReadable: bool, hwWritable: bool,
    reset: nat,
    wpri: bool, warl: Option<Warl>, priv: Option<string>, trapSignal: Option<string>,
    saveOnTrap: bool, restoreOnRet: bool, hwMirror: bool,
    incrementWhen: Option<string>, incrementHighOf: Option<string>)
  {
    function Width(): nat {
      if msb >= lsb then msb - lsb + 1 else 0
    }

    predicate Counter() {
      incrementWhen.Some? || incrementHighOf.Some?
    }
  }

  datatype Reg = Reg(
    name: string, address: nat, regwidth: nat, isArray: bool,
    fields: seq<Field>, priv: Option<string>, trapSignal: Option<string>)

  datatype Design = Design(xlen: nat, regs: seq<Reg>)

  // ----- Lookups used by the validator and by the emitter -----

  ghost predicate FirstNamed(regs: seq<Reg>, name: string, i: nat) {
    i < |regs| && regs[i].name == name && forall j :: 0 <= j < i ==> regs[j].name != name
  }

  /** The first register of that name, as `next(...)` finds it. */
  function FindReg(regs: seq<Reg>, name: string): Option<Reg> {
    if regs == [] then None
    else if regs[0].name == name then Some(regs[0])
    else FindReg(regs[1..], name)
  }

  ghost predicate FirstCounter(fields: seq<Field>, i: nat) {
    i < |fields| && fields[i].incrementWhen.Some? && forall j :: 0 <= j < i ==> fields[j].incrementWhen.None?
  }

  /** The low counters among the fields, in their order. */
  function CounterFields(fields: seq<Field>): seq<Field> {
    if fields == [] then []
    else (if fields[0].incrementWhen.Some? then [fields[0]] else []) + CounterFields(fields[1..])
  }

  // ----- The validator -----

  datatype Error =
    | BadRegWidth(reg: string)
    | RegWidthExceedsXlen(reg: string)
    | ArrayUnsupported(reg: string)
    | BadRegPriv(reg: string)
    | WpriWithWarl(reg: string, field: string)
    | BadFieldPriv(reg: string, field: string)
    | SaveNeedsHwWrite(reg: string, field: string)
    | MirrorNeedsHwWrite(reg: string, field: string)
    | MirrorWithSaveOrRestore(reg: string, field: string)
    | CounterWithHwWrite(reg: string, field: string)
    | CounterWithLifecycle(reg: string, field: string)
    | CounterNeedsSwWrite(reg: string, field: string)
    | NoLowRegister(reg: string, field: string)
    | NotOneLowCounter(reg: string, field: string)
    | HalfWidthMismatch(reg: string, field: string)

  predicate PrivOk(p: Option<string>) {
    p.None? || p.value == "m" || p.value == "s" || p.value == "u"
  }

  function CheckHighHalf(d: Design, r: string, f: Field): Option<Error> {
    if f.incrementHighOf.None? then None
    else
      var low := FindReg(d.regs, f.incrementHighOf.value);
      if low.None? then Some(NoLowRegister(r, f.name))
      else
        var counters := CounterFields(low.value.fields);
        if |counters| != 1 then Some(NotOneLowCounter(r, f.name))
        else if counters[0].Width() != f.Width() then Some(HalfWidthMismatch(r, f.name))
        else None
  }

  function CheckField(d: Design, r: string, f: Field): Option<Error> {
    if f.wpri && f.warl.Some? then Some(WpriWithWarl(r, f.name))
    else if !PrivOk(f.priv) then Some(BadFieldPriv(r, f.name))
    else if f.saveOnTrap && !f.hwWritable then Some(SaveNeedsHwWrite(r, f.name))
    else if f.hwMirror && !f.hwWritable then Some(MirrorNeedsHwWrite(r, f.name))
    else if f.hwMirror && (f.saveOnTrap || f.restoreOnRet) then Some(MirrorWithSaveOrRestore(r, f.name))
    else if f.Counter() && f.hwWritable then Some(CounterWithHwWrite(r, f.name))
    else if f.Counter() && (f.saveOnTrap || f.restoreOnRet || f.hwMirror) then Some(CounterWithLifecycle(r, f.name))
    else if f.Counter() && !f.swWritable then Some(CounterNeedsSwWrite(r, f.name))
    else CheckHighHalf(d, r, f)
  }

  function CheckFields(d: Design, r: string, fields: seq<Field>): Option<Error> {
    if fields == [] then None
    else
      var e := CheckField(d, r, fields[0]);
      if e.Some? then e else CheckFields(d, r, fields[1..])
  }

  function CheckReg(d: Design, r: Reg): Option<Error> {
    if r.regwidth != 32 && r.regwidth != 64 then Some(BadRegWidth(r.name))
    else if r.regwidth > d.xlen then Some(RegWidthExceedsXlen(r.name))
    else if r.isArray then Some(ArrayUnsupported(r.name))
    else if !PrivOk(r.priv) then Some(BadRegPriv(r.name))
    else CheckFields(d, r.name, r.fields)
  }

  function CheckRegs(d: Design, regs: seq<Reg>): Option<Error> {
    if regs == [] then None
    else
      var e := CheckReg(d, regs[0]);
      if e.Some? then e else CheckRegs(d, regs[1..])
  }

  /** The first complaint in register and field order, or none. */
  function Validate(d: Design): Option<Error> {
    CheckRegs(d, d.regs)
  }

  // ----- What acceptance means -----

  ghost predicate AcceptedField(d: Design, f: Field) {
    && !(f.wpri && f.warl.Some?)
    && (f.priv.Some? ==> f.priv.value in {"m", "s", "u"})
    && (f.saveOnTrap || f.hwMirror ==> f.hwWritable)
    && !(f.hwMirror && (f.saveOnTrap || f.restoreOnRet))
    && (f.Counter() ==>
          f.swWritable && !f.hwWritable && !f.saveOnTrap && !f.restoreOnRet && !f.hwMirror)
    && (f.incrementHighOf.Some? ==>
          var low := FindReg(d.regs, f.incrementHighOf.value);
          && low.Some?
          && |CounterFields(low.value.fields)| == 1
          && CounterFields(low.value.fields)[0].Width() == f.Width())
  }

  ghost predicate Accepted(d: Design) {
    forall r :: r in d.regs ==>
      && (r.regwidth == 32 || r.regwidth == 64) && r.regwidth <= d.xlen
      && !r.isArray && (r.priv.Some? ==> r.priv.value in {"m", "s", "u"})
      && forall f :: f in r.fields ==> AcceptedField(d, f)
  }

  lemma CheckFieldExact(d: Design, r: string, f: Field)
    ensures CheckField(d, r, f).None? <==> AcceptedField(d, f)
  {
    if f.incrementHighOf.Some? {
      var low := FindReg(d.regs, f.incrementHighOf.value);
      assert low.Some? ==> |CounterFields(low.value.fields)| >= 0;
    }
  }

  lemma {:induction false} CheckFieldsExact(d: Design, r: string, fields: seq<Field>)
    ensures CheckFields(d, r, fields).None? <==> forall f :: f in fields ==> AcceptedField(d, f)
  {
    if fields != [] {
      CheckFieldsExact(d, r, fields[1..]);
      CheckFieldExact(d, r, fields[0]);
      assert forall f :: f in fields <==> f == fields[0] || f in fields[1..];
    }
  }

  lemma {:induction false} CheckRegsExact(d: Design, regs: seq<Reg>)
    ensures CheckRegs(d, regs).None? <==> forall r :: r in regs ==> CheckReg(d, r).None?
  {
    if regs != [] {
      CheckRegsExact(d, regs[1..]);
      assert forall r :: r in regs <==> r == regs[0] || r in regs[1..];
    }
  }

  /** The validator accepts exactly the designs that meet every rule at once. */
  lemma ValidateExact(d: Design)
    ensures Validate(d).None? <==> Accepted(d)
  {
    CheckRegsExact(d, d.regs);
    forall r | r in d.regs
      ensures CheckFields(d, r.name, r.fields).None? <==> forall f :: f in r.fields ==> AcceptedField(d, f)
    {
      CheckFieldsExact(d, r.name, r.fields);
    }
  }

  // ----- Hypotheses the validator does not check -----

  ghost predicate DistinctFields(fields: seq<Field>) {
    forall i, j :: 0 <= i < j < |fields| ==> fields[i].name != fields[j].name
  }

  ghost predicate DistinctNames(regs: seq<Reg>) {
    && (forall i, j :: 0 <= i < j < |regs| ==> regs[i].name != regs[j].name)
    && forall r :: r in regs ==> DistinctFields(r.fields)
  }

  ghost predicate DistinctAddresses(regs: seq<Reg>) {
    forall i, j :: 0 <= i < j < |regs| ==> regs[i].address != regs[j].address
  }

  predicate Disjoint(a: Field, b: Field) {
    a.msb < b.lsb || b.msb < a.lsb
  }

  /** Fields lie inside the register and do not overlap. */
  ghost predicate WellPlaced(r: Reg) {
    && (forall f :: f in r.fields ==> f.lsb <= f.msb < r.regwidth)
    && forall i, j :: 0 <= i < j < |r.fields| ==> Disjoint(r.fields[i], r.fields[j])
  }

  lemma {:induction false} FindRegByName(regs: seq<Reg>, r: Reg)
    requires DistinctNames(regs) && r in regs
    ensures FindReg(regs, r.name) == Some(r)
  {
    if regs[0] != r {
      var i :| 0 <= i < |regs| && regs[i] == r;
      assert i > 0 && regs[0].name != regs[i].name;
      assert r in regs[1..];
      FindRegByName(regs[1..], r);
    }
  }

  lemma {:induction false} FindRegFirst(regs: seq<Reg>, name: string)
    ensures FindReg(regs, name).None? <==> forall r :: r in regs ==> r.name != name
    ensures FindReg(regs, name).Some? ==>
              exists i :: 0 <= i < |regs| && FirstNamed(regs, name, i) && regs[i] == FindReg(regs, name).value
  {
    if regs != [] {
      FindRegFirst(regs[1..], name);
      if regs[0].name == name {
        assert FirstNamed(regs, name, 0);
      } else if FindReg(regs[1..], name).Some? {
        var i :| 0 <= i < |regs[1..]| && FirstNamed(regs[1..], name, i) && regs[1..][i] == FindReg(regs, name).value;
        forall j | 0 <= j < i + 1 ensures regs[j].name != name { assert j > 0 ==> regs[j] == regs[1..][j - 1]; }
        assert FirstNamed(regs, name, i + 1);
      }
    }
  }

  lemma {:induction false} CounterFieldsFirst(fields: seq<Field>)
    ensures CounterFields(fields) != [] ==>
              exists i :: 0 <= i < |fields| && FirstCounter(fields, i) && fields[i] == CounterFields(fields)[0]
  {
    if fields != [] {
      CounterFieldsFirst(fields[1..]);
      if fields[0].incrementWhen.Some? {
        assert FirstCounter(fields, 0);
      } else if CounterFields(fields[1..]) != [] {
        var rest := fields[1..];
        var i :| 0 <= i < |rest| && FirstCounter(rest, i) && rest[i] == CounterFields(rest)[0];
        forall j | 0 <= j < i + 1 ensures fields[j].incrementWhen.None? {
          assert j > 0 ==> fields[j] == fields[1..][j - 1];
        }
        assert FirstCounter(fields, i + 1);
        assert CounterFields(fields) == CounterFields(fields[1..]);
      }
    }
  }

  lemma {:induction false} CounterFieldsFound(fields: seq<Field>, f: Field)
    ensures f in CounterFields(fields) <==> f in fields && f.incrementWhen.Some?
  {
    if fields != [] {
      CounterFieldsFound(fields[1..], f);
    }
  }
}
