/** The CSR-file generator: the clocked block it emits, the meaning of that block, and the generator itself. */
module CsrEmitter {
  import opened Bits
  import opened Options
  import opened Sequences
  import opened CsrDesign
  import opened CsrLayout

  // ----- The emitted language -----

  datatype Expr =
    | WData(hi: nat, lo: nat)
    | Cell(t: Target)
    | HwifIn(member: string)
    | Lit(v: nat, w: nat)
    | OrE(a: Expr, b: Expr)
    | AndE(a: Expr, b: Expr)
    | NotE(a: Expr)
    | IncE(a: Expr)
    | MatchOp(write: Expr, set_: Expr, clear: Expr, other: Expr)
    | MatchLegal(scrut: Expr, legal: seq<nat>, w: nat, default: nat)

  datatype Cond =
    | CmdValid
    | Granted
    | OpNonZero
    | AddrIs(addr: nat)
    | Port(name: string)
    | CellIs(t: Target, v: nat, w: nat)
    | Both(c: Cond, d: Cond)

  datatype Stmt = Assign(t: Target, e: Expr) | If(c: Cond, body: seq<Stmt>)

  // ----- Meaning: right-hand sides read the old state, the last assignment to a location wins -----

  /** One cycle of the CSR file's environment. */
  datatype Inputs = Inputs(
    cmdValid: bool, granted: bool, op: nat, addr: nat, wdata: BitVec,
    ports: string -> bool, hwif: string -> BitVec)

  function IsLegal(v: BitVec, legal: seq<nat>, w: nat): bool {
    exists k :: 0 <= k < |legal| && v == FromNat(legal[k], w)
  }

  function Eval(e: Expr, st: Store, i: Inputs): BitVec {
    match e
    case WData(hi, lo) => if lo <= hi then Slice(i.wdata, hi, lo) else []
    case Cell(t) => Get(st, t)
    case HwifIn(m) => i.hwif(m)
    case Lit(v, w) => FromNat(v, w)
    case OrE(a, b) => Or(Eval(a, st, i), Eval(b, st, i))
    case AndE(a, b) => And(Eval(a, st, i), Eval(b, st, i))
    case NotE(a) => Not(Eval(a, st, i))
    case IncE(a) => Inc(Eval(a, st, i))
    case MatchOp(w, s, c, o) =>
      if i.op == 1 then Eval(w, st, i) else if i.op == 2 then Eval(s, st, i)
      else if i.op == 3 then Eval(c, st, i) else Eval(o, st, i)
    case MatchLegal(s, legal, w, default) =>
      if IsLegal(Eval(s, st, i), legal, w) then Eval(s, st, i) else FromNat(default, w)
  }

  function Holds(c: Cond, st: Store, i: Inputs): bool {
    match c
    case CmdValid => i.cmdValid
    case Granted => i.granted
    case OpNonZero => i.op != 0
    case AddrIs(a) => i.addr == a
    case Port(p) => i.ports(p)
    case CellIs(t, v, w) => Get(st, t) == FromNat(v, w)
    case Both(x, y) => Holds(x, st, i) && Holds(y, st, i)
  }

  /** Collects the pending assignments of a clocked block. */
  function Exec(ss: seq<Stmt>, st: Store, i: Inputs, pending: Store): Store {
    if ss == [] then pending
    else
      var now := match ss[0]
        case Assign(t, e) => pending[t := Eval(e, st, i)]
        case If(c, body) => if Holds(c, st, i) then Exec(body, st, i, pending) else pending;
      Exec(ss[1..], st, i, now)
  }

  /** The state after the clock edge. */
  function Clocked(ss: seq<Stmt>, st: Store, i: Inputs): Store {
    var pending := Exec(ss, st, i, map[]);
    map t | t in st :: if t in pending then pending[t] else st[t]
  }

  // ----- What is emitted for one field -----

  function WriteData(f: Field): Expr {
    WData(f.msb, f.lsb)
  }

  function OpMatch(r: Reg, f: Field): Expr {
    var old_ := Cell(Ref(r, f));
    MatchOp(WriteData(f), OrE(old_, WriteData(f)), AndE(old_, NotE(WriteData(f))), old_)
  }

  /** Python's `sorted(set(values))`. */
  function SortedSet(values: seq<nat>): (s: seq<nat>)
    ensures forall v :: v in s <==> v in values
    ensures forall a, b :: 0 <= a < b < |s| ==> s[a] < s[b]
  {
    if values == [] then [] else InsertOnce(values[0], SortedSet(values[1..]))
  }

  function InsertOnce(v: nat, s: seq<nat>): (t: seq<nat>)
    requires forall a, b :: 0 <= a < b < |s| ==> s[a] < s[b]
    ensures forall x :: x in t <==> x == v || x in s
    ensures forall a, b :: 0 <= a < b < |t| ==> t[a] < t[b]
  {
    if s == [] || v < s[0] then [v] + s
    else if v == s[0] then s
    else
      var rest := InsertOnce(v, s[1..]);
      assert forall x :: x in rest ==> s[0] < x;
      assert forall b :: 0 <= b < |rest| ==> rest[b] in rest;
      [s[0]] + rest
  }

  predicate Writable(f: Field) {
    f.swWritable && !f.wpri
  }

  /** The value assigned on a bus write; an enumeration falls back to its smallest legal value. */
  function WriteExpr(r: Reg, f: Field): Expr {
    match f.warl
    case None => OpMatch(r, f)
    case Some(Mask(m)) => AndE(OpMatch(r, f), Lit(m, f.Width()))
    case Some(Enum(values)) =>
      var legal := SortedSet(values);
      MatchLegal(OpMatch(r, f), legal, f.Width(), if legal == [] then 0 else legal[0])
  }

  function Member(r: Reg, f: Field): string {
    r.name + "_" + f.name
  }

  /** The carry comparison literal: as many hex digits `f` as fit whole into the width. */
  function CarryConstant(w: nat): nat {
    Pow2(4 * (w / 4)) - 1
  }

  predicate HighHalf(f: Field) {
    f.incrementWhen.None? && f.incrementHighOf.Some?
  }

  /** The register and field found by the two lookups for a high half. */
  function LowHalf(d: Design, f: Field): Option<(Reg, Field)> {
    if f.incrementHighOf.None? then None
    else
      var low := FindReg(d.regs, f.incrementHighOf.value);
      if low.None? || CounterFields(low.value.fields) == [] then None
      else Some((low.value, CounterFields(low.value.fields)[0]))
  }

  function Increment(r: Reg, f: Field): Stmt {
    Assign(Ref(r, f), IncE(Cell(Ref(r, f))))
  }

  datatype Section = Drive | Count | Write

  function FieldStmts(k: Section, d: Design, r: Reg, f: Field): seq<Stmt> {
    match k
    case Drive => if f.hwWritable then [Assign(Ref(r, f), HwifIn(Member(r, f)))] else []
    case Count =>
      if f.incrementWhen.Some? then [If(Port(f.incrementWhen.value), [Increment(r, f)])]
      else if LowHalf(d, f).Some? then
        var (lowReg, low) := LowHalf(d, f).value;
        var enable := if low.incrementWhen.Some? then low.incrementWhen.value else "";
        [If(Both(Port(enable), CellIs(Ref(lowReg, low), CarryConstant(low.Width()), low.Width())), [Increment(r, f)])]
      else []
    case Write =>
      if Writable(f) then
        [Assign(Ref(r, f), WriteExpr(r, f))]
        + if f.trapSignal.Some? then [Assign(Pulse(f.trapSignal.value), Lit(1, 1))] else []
      else []
  }

  function RegStmts(k: Section, d: Design, r: Reg, fields: seq<Field>): seq<Stmt> {
    if fields == [] then [] else FieldStmts(k, d, r, fields[0]) + RegStmts(k, d, r, fields[1..])
  }

  function WriteBlock(d: Design, r: Reg): seq<Stmt> {
    RegStmts(Write, d, r, r.fields)
    + if r.trapSignal.Some? then [Assign(Pulse(r.trapSignal.value), Lit(1, 1))] else []
  }

  function RegSection(k: Section, d: Design, r: Reg): seq<Stmt> {
    if k.Write? then
      if WriteBlock(d, r) == [] then [] else [If(AddrIs(r.address), WriteBlock(d, r))]
    else RegStmts(k, d, r, r.fields)
  }

  function AllStmts(k: Section, d: Design, regs: seq<Reg>): seq<Stmt> {
    if regs == [] then [] else RegSection(k, d, regs[0]) + AllStmts(k, d, regs[1..])
  }

  // ----- The whole clocked block -----

  function FieldSignals(fields: seq<Field>): seq<string> {
    if fields == [] then []
    else (if fields[0].trapSignal.Some? then [fields[0].trapSignal.value] else []) + FieldSignals(fields[1..])
  }

  function Signals(regs: seq<Reg>): seq<string> {
    if regs == [] then []
    else
      (if regs[0].trapSignal.Some? then [regs[0].trapSignal.value] else [])
      + FieldSignals(regs[0].fields) + Signals(regs[1..])
  }

  function PulseResets(signals: seq<string>): seq<Stmt> {
    if signals == [] then [] else [Assign(Pulse(signals[0]), Lit(0, 1))] + PulseResets(signals[1..])
  }

  function FireBlock(d: Design): seq<Stmt> {
    var writes := AllStmts(Write, d, d.regs);
    if writes == [] then [] else [If(CmdValid, [If(Both(Granted, OpNonZero), writes)])]
  }

  function SeqBlock(d: Design): seq<Stmt> {
    PulseResets(Signals(d.regs)) + AllStmts(Drive, d, d.regs) + AllStmts(Count, d, d.regs) + FireBlock(d)
  }

  // ----- The generator -----

  /** Both `next(...)` lookups of the emitter find something for every high half. */
  ghost predicate LookupsSucceed(d: Design) {
    forall r, f :: r in d.regs && f in r.fields && f.incrementWhen.None? && f.incrementHighOf.Some? ==>
      LowHalf(d, f).Some?
  }

  ghost predicate RegLookups(d: Design, r: Reg) {
    forall f :: f in r.fields && f.incrementWhen.None? && f.incrementHighOf.Some? ==> LowHalf(d, f).Some?
  }

  /** Register `i` is the first of the name, and its field `j` the first that an enable port increments. */
  ghost predicate Found(d: Design, name: string, i: nat, j: nat, low: (Reg, Field)) {
    && FirstNamed(d.regs, name, i) && d.regs[i] == low.0
    && FirstCounter(d.regs[i].fields, j) && d.regs[i].fields[j] == low.1
  }

  /** What the two lookups find for a linked field, in any design, and when they find nothing. */
  lemma LowHalfIsFirst(d: Design, f: Field)
    requires f.incrementHighOf.Some?
    ensures LowHalf(d, f).Some? ==>
              exists i: nat, j: nat :: Found(d, f.incrementHighOf.value, i, j, LowHalf(d, f).value)
    ensures LowHalf(d, f).None? ==>
              forall i: nat :: FirstNamed(d.regs, f.incrementHighOf.value, i) ==>
                                 forall g :: g in d.regs[i].fields ==> g.incrementWhen.None?
  {
    var name := f.incrementHighOf.value;
    FindRegFirst(d.regs, name);
    if FindReg(d.regs, name).Some? {
      var q := FindReg(d.regs, name).value;
      var i :| 0 <= i < |d.regs| && FirstNamed(d.regs, name, i) && d.regs[i] == q;
      CounterFieldsFirst(q.fields);
      if CounterFields(q.fields) != [] {
        var j :| 0 <= j < |q.fields| && FirstCounter(q.fields, j) && q.fields[j] == CounterFields(q.fields)[0];
        assert Found(d, name, i, j, LowHalf(d, f).value);
      } else {
        forall g | g in q.fields ensures g.incrementWhen.None? { CounterFieldsFound(q.fields, g); }
        assert forall k: nat :: FirstNamed(d.regs, name, k) ==> k == i;
      }
    }
  }

  /** The pass over one register's fields; it stops when a lookup finds nothing. */
  method EmitFields(k: Section, d: Design, r: Reg) returns (lines: Option<seq<Stmt>>)
    ensures lines.Some? <==> k != Count || RegLookups(d, r)
    ensures lines.Some? ==> lines.value == RegStmts(k, d, r, r.fields)
  {
    var block: seq<Stmt> := [];
    for j := 0 to |r.fields|
      invariant block + RegStmts(k, d, r, r.fields[j..]) == RegStmts(k, d, r, r.fields)
      invariant k == Count ==> forall b :: 0 <= b < j && HighHalf(r.fields[b]) ==> LowHalf(d, r.fields[b]).Some?
    {
      var f := r.fields[j];
      assert r.fields[j..][0] == f && r.fields[j..][1..] == r.fields[j + 1..];
      if k == Count && HighHalf(f) && LowHalf(d, f).None? {
        assert f in r.fields;
        return None;
      }
      Regroup(block, FieldStmts(k, d, r, f), RegStmts(k, d, r, r.fields[j + 1..]));
      block := block + FieldStmts(k, d, r, f);
    }
    assert r.fields[|r.fields|..] == [];
    assert block == RegStmts(k, d, r, r.fields);
    lines := Some(block);
  }

  method EmitReg(k: Section, d: Design, r: Reg) returns (lines: Option<seq<Stmt>>)
    ensures lines.Some? <==> k != Count || RegLookups(d, r)
    ensures lines.Some? ==> lines.value == RegSection(k, d, r)
  {
    lines := EmitFields(k, d, r);
    if lines.None? || k != Write { return; }
    var block := lines.value;
    if r.trapSignal.Some? { block := block + [Assign(Pulse(r.trapSignal.value), Lit(1, 1))]; }
    assert block == WriteBlock(d, r);
    lines := Some(if block == [] then [] else [If(AddrIs(r.address), block)]);
  }

  /** One of the three passes over all registers. */
  method EmitSection(k: Section, d: Design) returns (lines: Option<seq<Stmt>>)
    ensures lines.Some? ==> lines.value == AllStmts(k, d, d.regs)
    ensures lines.Some? <==> k != Count || LookupsSucceed(d)
  {
    var out: seq<Stmt> := [];
    for i := 0 to |d.regs|
      invariant out + AllStmts(k, d, d.regs[i..]) == AllStmts(k, d, d.regs)
      invariant k == Count ==> forall a :: 0 <= a < i ==> RegLookups(d, d.regs[a])
    {
      var r := d.regs[i];
      assert d.regs[i..][0] == r && d.regs[i..][1..] == d.regs[i + 1..];
      var block := EmitReg(k, d, r);
      if block.None? {
        assert r in d.regs;
        return None;
      }
      Regroup(out, block.value, AllStmts(k, d, d.regs[i + 1..]));
      out := out + block.value;
    }
    assert d.regs[|d.regs|..] == [];
    assert k == Count ==> forall r :: r in d.regs ==> RegLookups(d, r);
    lines := Some(out);
  }

  /** The emitted clocked block: pulse resets, hardware drives, counters, then the guarded bus writes. */
  method EmitCsrFile(d: Design) returns (lines: Option<seq<Stmt>>)
    ensures lines.Some? <==> LookupsSucceed(d)
    ensures lines.Some? ==> lines.value == SeqBlock(d)
  {
    var drives := EmitSection(Drive, d);
    var counts := EmitSection(Count, d);
    var writes := EmitSection(Write, d);
    if counts.None? { return None; }
    var fire := if writes.value == [] then [] else [If(CmdValid, [If(Both(Granted, OpNonZero), writes.value)])];
    lines := Some(PulseResets(Signals(d.regs)) + drives.value + counts.value + fire);
  }

  /** An accepted design never stops the emitter. */
  lemma ValidationSufficesForEmission(d: Design)
    requires Validate(d).None?
    ensures LookupsSucceed(d)
  {
    ValidateExact(d);
    forall r, f | r in d.regs && f in r.fields && HighHalf(f) ensures LowHalf(d, f).Some? {
      assert AcceptedField(d, f);
    }
  }
}
