/** Runs of a generated CSR file: storage, legality, write-back, operation collapse and split counters. */
module CsrLaws {
  import opened Bits
  import opened Options
  import opened Counting
  import opened CsrDesign
  import opened CsrLayout
  import opened CsrEmitter
  import opened CsrCorrect

  // ----- The clocked module -----

  function ResetFields(r: Reg, fields: seq<Field>): Store {
    if fields == [] then map[]
    else ResetFields(r, fields[1..])[Ref(r, fields[0]) := FromNat(fields[0].reset, fields[0].Width())]
  }

  function ResetRegs(regs: seq<Reg>): Store {
    if regs == [] then map[] else ResetRegs(regs[1..]) + ResetFields(regs[0], regs[0].fields)
  }

  function ResetPulses(signals: seq<string>): Store {
    if signals == [] then map[] else ResetPulses(signals[1..])[Pulse(signals[0]) := [false]]
  }

  function ResetStore(d: Design): Store {
    ResetRegs(d.regs) + ResetPulses(Signals(d.regs))
  }

  class CsrFile {
    const design: Design
    const program: seq<Stmt>
    var state: Store

    constructor (d: Design, program: seq<Stmt>)
      ensures design == d && this.program == program && state == ResetStore(d)
    {
      design, this.program, state := d, program, ResetStore(d);
    }

    /** Executes a block against the sampled state, collecting the assignments to commit. */
    static method Run(ss: seq<Stmt>, sampled: Store, i: Inputs, before: Store) returns (pending: Store)
      ensures pending == Exec(ss, sampled, i, before)
      decreases ss
    {
      pending := before;
      for k := 0 to |ss|
        invariant Exec(ss[k..], sampled, i, pending) == Exec(ss, sampled, i, before)
      {
        assert ss[k..][0] == ss[k] && ss[k..][1..] == ss[k + 1..];
        match ss[k]
        case Assign(t, e) => pending := pending[t := Eval(e, sampled, i)];
        case If(c, body) => if Holds(c, sampled, i) { pending := Run(body, sampled, i, pending); }
      }
    }

    method Clock(i: Inputs)
      modifies this
      ensures state == Clocked(program, old(state), i)
    {
      var pending := Run(program, state, i, map[]);
      state := map t | t in state :: if t in pending then pending[t] else state[t];
    }

    /** The read multiplexer as the generator lists it, one arm per register in order. */
    method ReadData(i: Inputs) returns (rdata: BitVec)
      ensures rdata == ReadMux(design, state, i)
    {
      if !i.cmdValid { return Zeros(design.xlen); }
      for k := 0 to |design.regs|
        invariant MuxFrom(design.regs[k..], design.xlen, state, i.addr) == ReadMux(design, state, i)
      {
        var r := design.regs[k];
        assert design.regs[k..][0] == r && design.regs[k..][1..] == design.regs[k + 1..];
        if r.address == i.addr { return ReadValue(design.xlen, state, r); }
      }
      assert design.regs[|design.regs|..] == [];
      rdata := Zeros(design.xlen);
    }
  }

  /** The readback multiplexer: the first register at the address; a denied command still reads. */
  function MuxFrom(regs: seq<Reg>, xlen: nat, st: Store, addr: nat): BitVec {
    if regs == [] then Zeros(xlen)
    else if regs[0].address == addr then ReadValue(xlen, st, regs[0])
    else MuxFrom(regs[1..], xlen, st, addr)
  }

  function ReadMux(d: Design, st: Store, i: Inputs): BitVec {
    if i.cmdValid then MuxFrom(d.regs, d.xlen, st, i.addr) else Zeros(d.xlen)
  }

  lemma {:induction false} MuxSelects(regs: seq<Reg>, xlen: nat, st: Store, r: Reg)
    requires DistinctAddresses(regs) && r in regs
    ensures MuxFrom(regs, xlen, st, r.address) == ReadValue(xlen, st, r)
  {
    if regs[0] != r {
      var j :| 0 < j < |regs| && regs[j] == r;
      MuxSelects(regs[1..], xlen, st, r);
    }
  }

  type Drives = nat -> Inputs

  type Stores = nat -> Store

  ghost predicate StepsAt(d: Design, ins: Drives, ss: Stores, t: nat) {
    ss(t + 1) == Clocked(SeqBlock(d), ss(t), ins(t))
  }

  /** The stores a CSR file goes through from reset. */
  ghost predicate IsRun(d: Design, ins: Drives, ss: Stores) {
    ss(0) == ResetStore(d) && forall t: nat :: StepsAt(d, ins, ss, t)
  }

  // ----- The store keeps its shape -----

  /** Names are distinct and every field has a place; the validator does not check this. */
  ghost predicate Named(d: Design) {
    DistinctNames(d.regs) && Placed(d)
  }

  ghost predicate HwifSized(d: Design, i: Inputs) {
    forall r, f :: r in d.regs && f in r.fields && f.hwWritable ==> |i.hwif(Member(r, f))| == f.Width()
  }

  lemma LegaliseWidth(f: Field, v: BitVec)
    requires |v| == f.Width()
    ensures |Legalise(f, v)| == f.Width()
  {
  }

  lemma FieldNextWidth(d: Design, st: Store, i: Inputs, r: Reg, f: Field)
    requires Placed(d) && r in d.regs && f in r.fields
    requires |Stored(st, r, f)| == f.Width() && (f.hwWritable ==> |i.hwif(Member(r, f))| == f.Width())
    ensures |FieldNext(d, st, i, r, f)| == f.Width()
  {
    var v := OpValue(i.op, Stored(st, r, f), DataBits(f, i.wdata));
    assert |DataBits(f, i.wdata)| == f.Width();
    LegaliseWidth(f, v);
  }

  lemma SizedStep(d: Design, st: Store, i: Inputs)
    requires Named(d) && Sized(d.regs, st) && HwifSized(d, i)
    ensures Sized(d.regs, Clocked(SeqBlock(d), st, i))
  {
    var next := Clocked(SeqBlock(d), st, i);
    forall r, f | r in d.regs && f in r.fields ensures Ref(r, f) in next && |next[Ref(r, f)]| == f.Width() {
      assert Ref(r, f) in st;
      EmittedFieldCorrect(d, st, i, r, f);
      FieldNextWidth(d, st, i, r, f);
    }
  }

  lemma {:induction false} ResetFieldsAt(r: Reg, fields: seq<Field>, t: Target)
    ensures t in ResetFields(r, fields) <==> exists f :: f in fields && t == Ref(r, f)
    ensures DistinctFields(fields) ==> forall f :: f in fields ==>
              Get(ResetFields(r, fields), Ref(r, f)) == FromNat(f.reset, f.Width())
  {
    if fields != [] {
      ResetFieldsAt(r, fields[1..], t);
      assert forall f :: f in fields <==> f == fields[0] || f in fields[1..];
      if DistinctFields(fields) {
        forall f | f in fields
          ensures Get(ResetFields(r, fields), Ref(r, f)) == FromNat(f.reset, f.Width())
        {
          var j :| 0 <= j < |fields| && fields[j] == f;
          if j > 0 {
            assert fields[0].name != fields[j].name;
            ResetFieldsAt(r, fields[1..], Ref(r, f));
          }
        }
      }
    }
  }

  lemma {:induction false} ResetRegsAt(regs: seq<Reg>, r: Reg, f: Field)
    requires DistinctNames(regs) && r in regs && f in r.fields
    ensures Ref(r, f) in ResetRegs(regs) && ResetRegs(regs)[Ref(r, f)] == FromNat(f.reset, f.Width())
  {
    ResetFieldsAt(regs[0], regs[0].fields, Ref(r, f));
    if regs[0] != r {
      var j :| 0 < j < |regs| && regs[j] == r;
      ResetRegsAt(regs[1..], r, f);
    }
  }

  lemma {:induction false} ResetPulsesAt(signals: seq<string>, t: Target)
    ensures t in ResetPulses(signals) <==> t.Pulse? && t.signal in signals
  {
    if signals != [] {
      ResetPulsesAt(signals[1..], t);
      if t.Pulse? {
        assert t.signal in signals <==> t.signal == signals[0] || t.signal in signals[1..];
      }
    }
  }

  /** Out of reset every field holds its reset value, truncated to its width. */
  lemma ResetAt(d: Design, r: Reg, f: Field)
    requires DistinctNames(d.regs) && r in d.regs && f in r.fields
    ensures Ref(r, f) in ResetStore(d) && ResetStore(d)[Ref(r, f)] == FromNat(f.reset, f.Width())
  {
    ResetRegsAt(d.regs, r, f);
    ResetPulsesAt(Signals(d.regs), Ref(r, f));
  }

  ghost predicate DrivesSized(d: Design, ins: Drives) {
    forall u: nat :: HwifSized(d, ins(u))
  }

  lemma ResetSized(d: Design)
    requires DistinctNames(d.regs)
    ensures Sized(d.regs, ResetStore(d))
  {
    forall r, f | r in d.regs && f in r.fields
      ensures Ref(r, f) in ResetStore(d) && |ResetStore(d)[Ref(r, f)]| == f.Width()
    {
      ResetAt(d, r, f);
    }
  }

  lemma SizedAlways(d: Design, ins: Drives, ss: Stores, t: nat)
    requires Named(d) && DrivesSized(d, ins) && IsRun(d, ins, ss)
    ensures Sized(d.regs, ss(t))
  {
    var p := (u: nat) => Sized(d.regs, ss(u));
    ResetSized(d);
    forall u: nat ensures KeptAt(p, u) {
      assert StepsAt(d, ins, ss, u);
      if Sized(d.regs, ss(u)) { SizedStep(d, ss(u), ins(u)); }
    }
    Always(p, t);
  }

  lemma SizedViews(regs: seq<Reg>, st: Store, r: Reg)
    requires Sized(regs, st) && r in regs
    ensures ViewsSized(st, r, r.fields)
  {
    forall f | f in r.fields ensures |ReadView(st, r, f)| == f.Width() {
      assert Ref(r, f) in st;
    }
  }

  // ----- Trap pulses -----

  lemma {:induction false} PulseStored(d: Design, ins: Drives, ss: Stores, signal: string, t: nat)
    requires IsRun(d, ins, ss) && Tagged(d.regs, signal)
    ensures Pulse(signal) in ss(t)
  {
    if t == 0 {
      SignalsExact(d.regs, signal);
      ResetPulsesAt(Signals(d.regs), Pulse(signal));
    } else {
      PulseStored(d, ins, ss, signal, t - 1);
      assert StepsAt(d, ins, ss, t - 1);
    }
  }

  /** A bus write fires on a register that carries the tag itself or on a field that software may write. */
  ghost predicate PulseDue(d: Design, i: Inputs, signal: string) {
    && i.cmdValid && i.granted && i.op != 0
    && exists r :: r in d.regs && r.address == i.addr
         && (r.trapSignal == Some(signal)
             || exists f :: f in r.fields && f.trapSignal == Some(signal) && f.swWritable && !f.wpri)
  }

  lemma PulseDueIs(d: Design, i: Inputs, signal: string)
    ensures PulseDue(d, i, signal) <==> exists r :: r in d.regs && Fires(i, r) && LiveTag(r, signal)
  {
    if r :| r in d.regs && Fires(i, r) && LiveTag(r, signal) {
      assert r.address == i.addr;
    }
    if PulseDue(d, i, signal) {
      var r :| r in d.regs && r.address == i.addr
        && (r.trapSignal == Some(signal)
            || exists f :: f in r.fields && f.trapSignal == Some(signal) && f.swWritable && !f.wpri);
      assert Fires(i, r) && LiveTag(r, signal);
    }
  }

  /**
   * In every run from reset, each tag of the design has its pulse: high in a cycle if and only if a write fired on a
   * register with that tag, its own or a writable field's, in the cycle before.
   */
  lemma PulseExact(d: Design, ins: Drives, ss: Stores, signal: string, t: nat)
    requires IsRun(d, ins, ss) && Tagged(d.regs, signal)
    ensures Get(ss(0), Pulse(signal)) == [false]
    ensures Get(ss(t + 1), Pulse(signal)) == [PulseDue(d, ins(t), signal)]
  {
    SignalsExact(d.regs, signal);
    PulseStored(d, ins, ss, signal, 0);
    ResetPulseLow(Signals(d.regs), signal);
    PulseStored(d, ins, ss, signal, t);
    EmittedPulseCorrect(d, ss(t), ins(t), signal);
    PulseDueIs(d, ins(t), signal);
    assert StepsAt(d, ins, ss, t);
  }

  lemma {:induction false} ResetPulseLow(signals: seq<string>, signal: string)
    requires signal in signals
    ensures Get(ResetPulses(signals), Pulse(signal)) == [false]
  {
    if signals[0] != signal { ResetPulseLow(signals[1..], signal); }
  }

  // ----- WARL legality -----

  /** What the rule allows: only masked bits, or a listed value. */
  ghost predicate Legal(f: Field, v: BitVec) {
    match f.warl
    case None => true
    case Some(Mask(m)) => forall k :: 0 <= k < |v| && v[k] ==> Bit(FromNat(m, f.Width()), k)
    case Some(Enum(values)) => IsLegal(v, values, f.Width())
  }

  ghost predicate RuleUsable(f: Field) {
    f.warl.Some? && f.warl.value.Enum? ==> f.warl.value.legal != []
  }

  /** Legalisation always lands on a legal value, and changes nothing exactly on the legal ones. */
  lemma LegaliseLaws(f: Field, v: BitVec)
    requires RuleUsable(f) && |v| == f.Width()
    ensures Legal(f, Legalise(f, v))
    ensures Legalise(f, v) == v <==> Legal(f, v)
    ensures Legalise(f, Legalise(f, v)) == Legalise(f, v)
  {
    match f.warl
    case None =>
    case Some(Mask(m)) =>
    case Some(Enum(values)) =>
      LeastIsLeast(values);
      var k :| 0 <= k < |values| && values[k] == Least(values);
      assert IsLegal(FromNat(Least(values), f.Width()), values, f.Width());
  }

  /** A field only software can change: no hardware drive, no counter. */
  predicate SoftwareOnly(f: Field) {
    !f.hwWritable && !f.Counter()
  }

  lemma LegalStep(d: Design, st: Store, i: Inputs, r: Reg, f: Field)
    requires Named(d) && Sized(d.regs, st) && HwifSized(d, i)
    requires r in d.regs && f in r.fields && SoftwareOnly(f) && RuleUsable(f)
    requires Legal(f, Stored(st, r, f))
    ensures Legal(f, Stored(Clocked(SeqBlock(d), st, i), r, f))
  {
    assert Ref(r, f) in st;
    EmittedFieldCorrect(d, st, i, r, f);
    LegaliseLaws(f, OpValue(i.op, Stored(st, r, f), DataBits(f, i.wdata)));
  }

  /** In every run, a software-only WARL field with a legal reset value is legal in every state. */
  lemma {:induction false} LegalAlways(d: Design, ins: Drives, ss: Stores, t: nat, r: Reg, f: Field)
    requires Named(d) && DrivesSized(d, ins) && IsRun(d, ins, ss)
    requires r in d.regs && f in r.fields && SoftwareOnly(f) && RuleUsable(f)
    requires Legal(f, FromNat(f.reset, f.Width()))
    ensures Legal(f, Stored(ss(t), r, f))
  {
    if t == 0 {
      ResetAt(d, r, f);
    } else {
      LegalAlways(d, ins, ss, t - 1, r, f);
      SizedAlways(d, ins, ss, t - 1);
      LegalStep(d, ss(t - 1), ins(t - 1), r, f);
      assert StepsAt(d, ins, ss, t - 1);
    }
  }

  // ----- Write, set and clear as software sees them -----

  /** A fired operation reads back next cycle as the legalised per-field result. */
  lemma WriteReadsBack(d: Design, st: Store, i: Inputs, r: Reg, f: Field, next: Inputs)
    requires Named(d) && DistinctAddresses(d.regs) && Sized(d.regs, st) && HwifSized(d, i)
    requires r in d.regs && f in r.fields && WellPlaced(r) && r.regwidth <= d.xlen
    requires i.cmdValid && i.granted && i.op != 0 && i.addr == r.address && f.swWritable && !f.wpri && f.swReadable
    requires next.cmdValid && next.addr == r.address
    ensures Slice(ReadMux(d, Clocked(SeqBlock(d), st, i), next), f.msb, f.lsb)
         == Legalise(f, OpValue(i.op, Stored(st, r, f), DataBits(f, i.wdata)))
  {
    var after := Clocked(SeqBlock(d), st, i);
    SizedStep(d, st, i);
    assert Ref(r, f) in st;
    EmittedFieldCorrect(d, st, i, r, f);
    MuxSelects(d.regs, d.xlen, after, r);
    SizedViews(d.regs, after, r);
    LayoutLaw(d.xlen, after, r);
  }

  function Idle(i: Inputs): Inputs {
    i.(cmdValid := false)
  }

  /** A field that is reserved or that software may not write behaves under every bus write as in an idle cycle. */
  lemma ReadOnlyFieldIgnoresWrites(d: Design, st: Store, i: Inputs, r: Reg, f: Field)
    requires Named(d) && r in d.regs && f in r.fields && Ref(r, f) in st && (f.wpri || !f.swWritable)
    ensures Stored(Clocked(SeqBlock(d), st, i), r, f) == Stored(Clocked(SeqBlock(d), st, Idle(i)), r, f)
  {
    EmittedFieldCorrect(d, st, i, r, f);
    EmittedFieldCorrect(d, st, Idle(i), r, f);
  }

  /** The part of the store the generator writes. */
  ghost predicate StoreOf(d: Design, st: Store) {
    forall t :: t in st <==>
      (t.Pulse? && t.signal in Signals(d.regs)) || exists r, f :: r in d.regs && f in r.fields && t == Ref(r, f)
  }

  lemma SamePulse(d: Design, st: Store, i: Inputs, j: Inputs, signal: string)
    requires signal in Signals(d.regs) && Pulse(signal) in st
    requires forall r :: r in d.regs ==> (Fires(i, r) <==> Fires(j, r))
    ensures Clocked(SeqBlock(d), st, i)[Pulse(signal)] == Clocked(SeqBlock(d), st, j)[Pulse(signal)]
  {
    SignalsExact(d.regs, signal);
    EmittedPulseCorrect(d, st, i, signal);
    EmittedPulseCorrect(d, st, j, signal);
  }

  lemma SameField(d: Design, st: Store, i: Inputs, j: Inputs, r: Reg, f: Field)
    requires Named(d) && r in d.regs && f in r.fields && Ref(r, f) in st
    requires FieldNext(d, st, i, r, f) == FieldNext(d, st, j, r, f)
    ensures Clocked(SeqBlock(d), st, i)[Ref(r, f)] == Clocked(SeqBlock(d), st, j)[Ref(r, f)]
  {
    EmittedFieldCorrect(d, st, i, r, f);
    EmittedFieldCorrect(d, st, j, r, f);
  }

  lemma SameOn(d: Design, st: Store, a: Store, b: Store)
    requires StoreOf(d, st) && a.Keys == st.Keys && b.Keys == st.Keys
    requires forall signal :: signal in Signals(d.regs) ==> Pulse(signal) in st && a[Pulse(signal)] == b[Pulse(signal)]
    requires forall r, f :: r in d.regs && f in r.fields ==> Ref(r, f) in st && a[Ref(r, f)] == b[Ref(r, f)]
    ensures a == b
  {
    forall t | t in a ensures a[t] == b[t] {
      if t.Pulse? && t.signal in Signals(d.regs) {
        assert a[Pulse(t.signal)] == b[Pulse(t.signal)];
      } else {
        var r, f :| r in d.regs && f in r.fields && t == Ref(r, f);
      }
    }
  }

  /** Two cycles that agree field by field and fire the same tags lead to the same store. */
  lemma SameStore(d: Design, st: Store, i: Inputs, j: Inputs)
    requires Named(d) && StoreOf(d, st)
    requires forall r, f :: r in d.regs && f in r.fields ==> FieldNext(d, st, i, r, f) == FieldNext(d, st, j, r, f)
    requires forall r :: r in d.regs ==> (Fires(i, r) <==> Fires(j, r))
    ensures Clocked(SeqBlock(d), st, i) == Clocked(SeqBlock(d), st, j)
  {
    var a, b := Clocked(SeqBlock(d), st, i), Clocked(SeqBlock(d), st, j);
    forall signal | signal in Signals(d.regs) ensures Pulse(signal) in st && a[Pulse(signal)] == b[Pulse(signal)] {
      SamePulse(d, st, i, j, signal);
    }
    forall r, f | r in d.regs && f in r.fields ensures Ref(r, f) in st && a[Ref(r, f)] == b[Ref(r, f)] {
      SameField(d, st, i, j, r, f);
    }
    SameOn(d, st, a, b);
  }

  /**
   * Writing back the value just read leaves every field as an idle cycle would, when the register's
   * writable fields are readable, hold legal values and are not changed by hardware in that cycle.
   */
  lemma WriteBackIsIdle(d: Design, st: Store, i: Inputs, r: Reg, q: Reg, g: Field)
    requires Named(d) && DistinctAddresses(d.regs) && Sized(d.regs, st)
    requires r in d.regs && WellPlaced(r) && r.regwidth <= d.xlen
    requires Fires(i, r) && i.op == 1 && i.wdata == ReadValue(d.xlen, st, r)
    requires forall f :: f in r.fields && Writable(f) ==>
               && f.swReadable && RuleUsable(f) && Legal(f, Stored(st, r, f))
               && FieldNext(d, st, Idle(i), r, f) == Stored(st, r, f)
    requires q in d.regs && g in q.fields
    ensures Stored(Clocked(SeqBlock(d), st, i), q, g) == Stored(Clocked(SeqBlock(d), st, Idle(i)), q, g)
  {
    assert Ref(q, g) in st;
    EmittedFieldCorrect(d, st, i, q, g);
    EmittedFieldCorrect(d, st, Idle(i), q, g);
    if Fires(i, q) && Writable(g) {
      var m :| 0 <= m < |d.regs| && d.regs[m] == q;
      var n :| 0 <= n < |d.regs| && d.regs[n] == r;
      assert q == r;
      SizedViews(d.regs, st, r);
      LayoutLaw(d.xlen, st, r);
      assert DataBits(g, i.wdata) == Stored(st, r, g);
      LegaliseLaws(g, Stored(st, r, g));
    }
  }

  /** Its trap pulses do rise: each signal is high afterwards exactly if the written register carries its live tag. */
  lemma WriteBackPulses(d: Design, st: Store, i: Inputs, r: Reg, signal: string)
    requires DistinctAddresses(d.regs) && r in d.regs && Fires(i, r)
    requires Tagged(d.regs, signal) && Pulse(signal) in st
    ensures Get(Clocked(SeqBlock(d), st, i), Pulse(signal)) == [LiveTag(r, signal)]
    ensures Get(Clocked(SeqBlock(d), st, Idle(i)), Pulse(signal)) == [false]
  {
    EmittedPulseCorrect(d, st, i, signal);
    EmittedPulseCorrect(d, st, Idle(i), signal);
    forall q | q in d.regs && Fires(i, q) ensures q == r {
      var m :| 0 <= m < |d.regs| && d.regs[m] == q;
      var n :| 0 <= n < |d.regs| && d.regs[n] == r;
    }
  }

  /** The adapter's full new value for a SET or a CLEAR, computed from the read value. */
  function Precomputed(op: nat, data: BitVec, rdata: BitVec): BitVec {
    if op == 2 then Or(data, rdata) else if op == 3 then And(Not(data), rdata) else data
  }

  lemma PrecomputedBits(op: nat, f: Field, old_: BitVec, data: BitVec, rdata: BitVec)
    requires f.lsb <= f.msb < |data| && Slice(rdata, f.msb, f.lsb) == old_ && (op == 1 || op == 2 || op == 3)
    ensures DataBits(f, Precomputed(op, data, rdata)) == OpValue(op, old_, DataBits(f, data))
  {
    forall k | 0 <= k < f.Width()
      ensures DataBits(f, Precomputed(op, data, rdata))[k] == OpValue(op, old_, DataBits(f, data))[k]
    {
      assert Slice(rdata, f.msb, f.lsb)[k] == Bit(rdata, f.lsb + k);
    }
  }

  lemma CollapsedField(d: Design, st: Store, i: Inputs, write: Inputs, r: Reg, f: Field)
    requires Named(d) && DistinctAddresses(d.regs) && Sized(d.regs, st)
    requires r in d.regs && f in r.fields && Writable(f) && f.swReadable
    requires WellPlaced(r) && r.regwidth <= d.xlen && Fires(i, r)
    requires (i.op == 1 || i.op == 2 || i.op == 3) && |i.wdata| == d.xlen
    requires write == i.(op := 1, wdata := Precomputed(i.op, i.wdata, ReadMux(d, st, i)))
    ensures FieldNext(d, st, write, r, f) == FieldNext(d, st, i, r, f)
  {
    MuxSelects(d.regs, d.xlen, st, r);
    SizedViews(d.regs, st, r);
    LayoutLaw(d.xlen, st, r);
    PrecomputedBits(i.op, f, Stored(st, r, f), i.wdata, ReadMux(d, st, i));
  }

  /**
   * Operation collapse: where every writable field of the addressed register is readable, sending the
   * precomputed SET or CLEAR value as a plain WRITE reaches the same store as the original operation.
   */
  lemma OpCollapse(d: Design, st: Store, i: Inputs)
    requires Named(d) && DistinctAddresses(d.regs) && Sized(d.regs, st) && StoreOf(d, st)
    requires i.op == 1 || i.op == 2 || i.op == 3
    requires |i.wdata| == d.xlen
    requires forall r :: r in d.regs && i.addr == r.address ==>
               && WellPlaced(r) && r.regwidth <= d.xlen
               && forall f :: f in r.fields && Writable(f) ==> f.swReadable
    ensures var write := i.(op := 1, wdata := Precomputed(i.op, i.wdata, ReadMux(d, st, i)));
            Clocked(SeqBlock(d), st, write) == Clocked(SeqBlock(d), st, i)
  {
    var write := i.(op := 1, wdata := Precomputed(i.op, i.wdata, ReadMux(d, st, i)));
    forall r, f | r in d.regs && f in r.fields ensures FieldNext(d, st, write, r, f) == FieldNext(d, st, i, r, f) {
      if Fires(i, r) && Writable(f) { CollapsedField(d, st, i, write, r, f); }
    }
    SameStore(d, st, write, i);
  }
}
