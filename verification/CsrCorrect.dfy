/** The emitted clocked block equals a simple per-field rule, for every design with distinct names. */
module CsrCorrect {
  import opened Bits
  import opened Options
  import opened CsrDesign
  import opened CsrLayout
  import opened CsrEmitter

  // ----- The per-field reference -----

  /** A bus write fires on a register. */
  predicate Fires(i: Inputs, r: Reg) {
    i.cmdValid && i.granted && i.op != 0 && i.addr == r.address
  }

  function OpValue(op: nat, old_: BitVec, data: BitVec): BitVec {
    if op == 1 then data
    else if op == 2 then Or(old_, data)
    else if op == 3 then And(old_, Not(data))
    else old_
  }

  /** The write data's bits for a field. */
  function DataBits(f: Field, wdata: BitVec): BitVec {
    if f.lsb <= f.msb then Slice(wdata, f.msb, f.lsb) else []
  }

  /** The smallest of a list. */
  function Least(values: seq<nat>): nat {
    if values == [] then 0
    else if |values| == 1 then values[0]
    else if values[0] < Least(values[1..]) then values[0] else Least(values[1..])
  }

  /** Legalisation: masked, or coerced to the smallest legal value when not listed. */
  function Legalise(f: Field, v: BitVec): BitVec {
    match f.warl
    case None => v
    case Some(Mask(m)) => And(v, FromNat(m, f.Width()))
    case Some(Enum(values)) => if IsLegal(v, values, f.Width()) then v else FromNat(Least(values), f.Width())
  }

  /** The counter part of the rule: an enabled low half, or a high half whose low half rolls over. */
  predicate CountsNow(d: Design, st: Store, i: Inputs, f: Field) {
    if f.incrementWhen.Some? then i.ports(f.incrementWhen.value)
    else if LowHalf(d, f).Some? then
      var (lowReg, low) := LowHalf(d, f).value;
      && low.incrementWhen.Some? && i.ports(low.incrementWhen.value)
      && Stored(st, lowReg, low) == FromNat(CarryConstant(low.Width()), low.Width())
    else false
  }

  /** Fired bus write, else counting, else hardware drive, else hold. */
  function FieldNext(d: Design, st: Store, i: Inputs, r: Reg, f: Field): BitVec {
    var old_ := Stored(st, r, f);
    if Fires(i, r) && Writable(f) then Legalise(f, OpValue(i.op, old_, DataBits(f, i.wdata)))
    else if CountsNow(d, st, i, f) then Inc(old_)
    else if f.hwWritable then i.hwif(Member(r, f))
    else old_
  }

  /** A tag that some write of the register asserts. */
  ghost predicate LiveTag(r: Reg, signal: string) {
    || r.trapSignal == Some(signal)
    || exists f :: f in r.fields && Writable(f) && f.trapSignal == Some(signal)
  }

  // ----- The last assignment to one location -----

  /** The value `t` ends up with, starting from `cur`. */
  function After(ss: seq<Stmt>, st: Store, i: Inputs, t: Target, cur: BitVec): BitVec
    decreases ss
  {
    if ss == [] then cur else After(ss[1..], st, i, t, AfterStmt(ss[0], st, i, t, cur))
  }

  function AfterStmt(s: Stmt, st: Store, i: Inputs, t: Target, cur: BitVec): BitVec
    decreases s
  {
    match s
    case Assign(u, e) => if u == t then Eval(e, st, i) else cur
    case If(c, body) => if Holds(c, st, i) then After(body, st, i, t, cur) else cur
  }

  function Pending(p: Store, t: Target, cur: BitVec): BitVec {
    if t in p then p[t] else cur
  }

  lemma {:induction false} ExecIsAfter(ss: seq<Stmt>, st: Store, i: Inputs, p: Store, t: Target, cur: BitVec)
    ensures Pending(Exec(ss, st, i, p), t, cur) == After(ss, st, i, t, Pending(p, t, cur))
    decreases ss
  {
    if ss != [] {
      match ss[0]
      case Assign(u, e) =>
        ExecIsAfter(ss[1..], st, i, p[u := Eval(e, st, i)], t, cur);
      case If(c, body) =>
        if Holds(c, st, i) {
          ExecIsAfter(body, st, i, p, t, cur);
          ExecIsAfter(ss[1..], st, i, Exec(body, st, i, p), t, cur);
        } else {
          ExecIsAfter(ss[1..], st, i, p, t, cur);
        }
    }
  }

  lemma {:induction false} AfterAppend(a: seq<Stmt>, b: seq<Stmt>, st: Store, i: Inputs, t: Target, cur: BitVec)
    ensures After(a + b, st, i, t, cur) == After(b, st, i, t, After(a, st, i, t, cur))
    decreases |a|
  {
    if a == [] {
      assert a + b == b;
    } else {
      assert (a + b)[1..] == a[1..] + b;
      AfterAppend(a[1..], b, st, i, t, AfterStmt(a[0], st, i, t, cur));
    }
  }

  lemma AfterOne(s: Stmt, st: Store, i: Inputs, t: Target, cur: BitVec)
    ensures After([s], st, i, t, cur) == AfterStmt(s, st, i, t, cur)
  {
    assert [s][1..] == [];
  }

  // ----- One field at a time -----

  lemma FieldFrame(k: Section, d: Design, st: Store, i: Inputs, r: Reg, f: Field, t: Target, cur: BitVec)
    requires t != Ref(r, f) && t.FieldRef?
    ensures After(FieldStmts(k, d, r, f), st, i, t, cur) == cur
  {
    var ss := FieldStmts(k, d, r, f);
    if ss != [] {
      AfterOne(ss[0], st, i, t, cur);
      if k == Count {
        AfterOne(Increment(r, f), st, i, t, cur);
      }
      if |ss| == 2 {
        AfterAppend([ss[0]], [ss[1]], st, i, t, cur);
        AfterOne(ss[1], st, i, t, cur);
        assert ss == [ss[0]] + [ss[1]];
      } else {
        assert ss == [ss[0]];
      }
    }
  }

  lemma {:induction false} RegFrame(
    k: Section, d: Design, st: Store, i: Inputs, r: Reg, fields: seq<Field>, t: Target, cur: BitVec)
    requires t.FieldRef? && forall f :: f in fields ==> t != Ref(r, f)
    ensures After(RegStmts(k, d, r, fields), st, i, t, cur) == cur
  {
    if fields != [] {
      FieldFrame(k, d, st, i, r, fields[0], t, cur);
      AfterAppend(FieldStmts(k, d, r, fields[0]), RegStmts(k, d, r, fields[1..]), st, i, t, cur);
      RegFrame(k, d, st, i, r, fields[1..], t, cur);
    }
  }

  lemma {:induction false} RegAt(
    k: Section, d: Design, st: Store, i: Inputs, r: Reg, fields: seq<Field>, f: Field, cur: BitVec)
    requires DistinctFields(fields) && f in fields
    ensures After(RegStmts(k, d, r, fields), st, i, Ref(r, f), cur)
         == After(FieldStmts(k, d, r, f), st, i, Ref(r, f), cur)
  {
    var t, g, rest := Ref(r, f), fields[0], fields[1..];
    AfterAppend(FieldStmts(k, d, r, g), RegStmts(k, d, r, rest), st, i, t, cur);
    if g == f {
      forall h | h in rest ensures t != Ref(r, h) {
        var j :| 0 < j < |fields| && fields[j] == h;
      }
      RegFrame(k, d, st, i, r, rest, t, After(FieldStmts(k, d, r, f), st, i, t, cur));
    } else {
      var j :| 0 < j < |fields| && fields[j] == f;
      FieldFrame(k, d, st, i, r, g, t, cur);
      RegAt(k, d, st, i, r, rest, f, cur);
    }
  }

  // ----- One register at a time -----

  lemma WriteBlockAt(d: Design, st: Store, i: Inputs, r: Reg, t: Target, cur: BitVec)
    requires t.FieldRef?
    ensures After(WriteBlock(d, r), st, i, t, cur) == After(RegStmts(Write, d, r, r.fields), st, i, t, cur)
  {
    if r.trapSignal.Some? {
      var pulse := Assign(Pulse(r.trapSignal.value), Lit(1, 1));
      AfterAppend(RegStmts(Write, d, r, r.fields), [pulse], st, i, t, cur);
      AfterOne(pulse, st, i, t, After(RegStmts(Write, d, r, r.fields), st, i, t, cur));
    } else {
      assert WriteBlock(d, r) == RegStmts(Write, d, r, r.fields);
    }
  }

  lemma RegSectionAt(k: Section, d: Design, st: Store, i: Inputs, r: Reg, t: Target, cur: BitVec)
    requires t.FieldRef?
    ensures After(RegSection(k, d, r), st, i, t, cur)
         == if k.Write? && i.addr != r.address then cur else After(RegStmts(k, d, r, r.fields), st, i, t, cur)
  {
    if k.Write? {
      WriteBlockAt(d, st, i, r, t, cur);
      if WriteBlock(d, r) != [] {
        AfterOne(If(AddrIs(r.address), WriteBlock(d, r)), st, i, t, cur);
      }
    }
  }

  lemma {:induction false} SectionFrame(
    k: Section, d: Design, st: Store, i: Inputs, regs: seq<Reg>, t: Target, cur: BitVec)
    requires t.FieldRef? && forall r :: r in regs ==> r.name != t.reg
    ensures After(AllStmts(k, d, regs), st, i, t, cur) == cur
  {
    if regs != [] {
      RegSectionAt(k, d, st, i, regs[0], t, cur);
      RegFrame(k, d, st, i, regs[0], regs[0].fields, t, cur);
      AfterAppend(RegSection(k, d, regs[0]), AllStmts(k, d, regs[1..]), st, i, t, cur);
      SectionFrame(k, d, st, i, regs[1..], t, cur);
    }
  }

  /** A pass runs its first register's statements before those of the rest. */
  lemma SectionFirst(k: Section, d: Design, st: Store, i: Inputs, regs: seq<Reg>, t: Target, cur: BitVec, mid: BitVec)
    requires regs != [] && t.FieldRef?
    requires mid
          == if k.Write? && i.addr != regs[0].address then cur
             else After(RegStmts(k, d, regs[0], regs[0].fields), st, i, t, cur)
    ensures After(AllStmts(k, d, regs), st, i, t, cur) == After(AllStmts(k, d, regs[1..]), st, i, t, mid)
  {
    RegSectionAt(k, d, st, i, regs[0], t, cur);
    AfterAppend(RegSection(k, d, regs[0]), AllStmts(k, d, regs[1..]), st, i, t, cur);
  }

  /** In a whole pass, a location is touched only by its own field's statements. */
  lemma {:induction false} SectionAt(
    k: Section, d: Design, st: Store, i: Inputs, regs: seq<Reg>, r: Reg, f: Field, cur: BitVec)
    requires DistinctNames(regs) && r in regs && f in r.fields
    ensures After(AllStmts(k, d, regs), st, i, Ref(r, f), cur)
         == if k.Write? && i.addr != r.address then cur else After(FieldStmts(k, d, r, f), st, i, Ref(r, f), cur)
  {
    var t, q, rest := Ref(r, f), regs[0], regs[1..];
    if q == r {
      var mid := if k.Write? && i.addr != r.address then cur else After(FieldStmts(k, d, r, f), st, i, t, cur);
      RegAt(k, d, st, i, r, r.fields, f, cur);
      SectionFirst(k, d, st, i, regs, t, cur, mid);
      forall s | s in rest ensures s.name != r.name {
        var j :| 0 < j < |regs| && regs[j] == s;
      }
      SectionFrame(k, d, st, i, rest, t, mid);
    } else {
      var j :| 0 < j < |regs| && regs[j] == r;
      RegFrame(k, d, st, i, q, q.fields, t, cur);
      SectionFirst(k, d, st, i, regs, t, cur, cur);
      SectionAt(k, d, st, i, rest, r, f, cur);
    }
  }

  // ----- The guarded writes and the whole block -----

  lemma FireBlockAt(d: Design, st: Store, i: Inputs, t: Target, cur: BitVec)
    ensures After(FireBlock(d), st, i, t, cur)
         == if i.cmdValid && i.granted && i.op != 0 then After(AllStmts(Write, d, d.regs), st, i, t, cur) else cur
  {
    var writes := AllStmts(Write, d, d.regs);
    if writes != [] {
      var guarded := If(Both(Granted, OpNonZero), writes);
      assert Holds(Granted, st, i) == i.granted && Holds(OpNonZero, st, i) == (i.op != 0);
      AfterOne(guarded, st, i, t, cur);
      AfterOne(If(CmdValid, [guarded]), st, i, t, cur);
    }
  }

  lemma {:induction false} PulseResetsAt(signals: seq<string>, st: Store, i: Inputs, t: Target, cur: BitVec)
    ensures After(PulseResets(signals), st, i, t, cur)
         == if t.Pulse? && t.signal in signals then FromNat(0, 1) else cur
  {
    if signals != [] {
      var reset_ := Assign(Pulse(signals[0]), Lit(0, 1));
      assert PulseResets(signals)[1..] == PulseResets(signals[1..]);
      PulseResetsAt(signals[1..], st, i, t, if t == Pulse(signals[0]) then FromNat(0, 1) else cur);
      assert Eval(Lit(0, 1), st, i) == FromNat(0, 1);
      if t.Pulse? {
        assert t.signal in signals <==> t.signal == signals[0] || t.signal in signals[1..];
      }
    }
  }

  lemma SeqBlockAt(d: Design, st: Store, i: Inputs, t: Target, cur: BitVec)
    ensures After(SeqBlock(d), st, i, t, cur)
         == After(FireBlock(d), st, i, t,
              After(AllStmts(Count, d, d.regs), st, i, t,
                After(AllStmts(Drive, d, d.regs), st, i, t,
                  After(PulseResets(Signals(d.regs)), st, i, t, cur))))
  {
    var a, b, c := PulseResets(Signals(d.regs)), AllStmts(Drive, d, d.regs), AllStmts(Count, d, d.regs);
    AfterAppend(a + b + c, FireBlock(d), st, i, t, cur);
    AfterAppend(a + b, c, st, i, t, cur);
    AfterAppend(a, b, st, i, t, cur);
  }

  // ----- Meaning of one field's statements -----

  lemma DriveMeaning(d: Design, st: Store, i: Inputs, r: Reg, f: Field, cur: BitVec)
    ensures After(FieldStmts(Drive, d, r, f), st, i, Ref(r, f), cur)
         == if f.hwWritable then i.hwif(Member(r, f)) else cur
  {
    if f.hwWritable {
      AfterOne(Assign(Ref(r, f), HwifIn(Member(r, f))), st, i, Ref(r, f), cur);
    }
  }

  lemma GuardedIncrement(c: Cond, st: Store, i: Inputs, r: Reg, f: Field, cur: BitVec)
    ensures After([If(c, [Increment(r, f)])], st, i, Ref(r, f), cur)
         == if Holds(c, st, i) then Inc(Stored(st, r, f)) else cur
  {
    var t := Ref(r, f);
    AfterOne(If(c, [Increment(r, f)]), st, i, t, cur);
    AfterOne(Increment(r, f), st, i, t, cur);
    assert Eval(Cell(t), st, i) == Stored(st, r, f);
    assert Eval(IncE(Cell(t)), st, i) == Inc(Stored(st, r, f));
  }

  lemma CarryMeaning(d: Design, st: Store, i: Inputs, r: Reg, f: Field, cur: BitVec)
    requires f.incrementWhen.None? && LowHalf(d, f).Some?
    ensures After(FieldStmts(Count, d, r, f), st, i, Ref(r, f), cur)
         == if CountsNow(d, st, i, f) then Inc(Stored(st, r, f)) else cur
  {
    var (lowReg, low) := LowHalf(d, f).value;
    CounterFieldsFound(lowReg.fields, low);
    assert low in CounterFields(lowReg.fields);
    var enable := Port(low.incrementWhen.value);
    var full := CellIs(Ref(lowReg, low), CarryConstant(low.Width()), low.Width());
    GuardedIncrement(Both(enable, full), st, i, r, f, cur);
    assert Holds(Both(enable, full), st, i) == (Holds(enable, st, i) && Holds(full, st, i));
  }

  lemma CountMeaning(d: Design, st: Store, i: Inputs, r: Reg, f: Field, cur: BitVec)
    ensures After(FieldStmts(Count, d, r, f), st, i, Ref(r, f), cur)
         == if CountsNow(d, st, i, f) then Inc(Stored(st, r, f)) else cur
  {
    if f.incrementWhen.Some? {
      GuardedIncrement(Port(f.incrementWhen.value), st, i, r, f, cur);
    } else if LowHalf(d, f).Some? {
      CarryMeaning(d, st, i, r, f, cur);
    }
  }

  lemma SortedSetLeast(values: seq<nat>)
    requires values != []
    ensures SortedSet(values) != [] && SortedSet(values)[0] == Least(values)
  {
    LeastIsLeast(values);
    var s := SortedSet(values);
    assert Least(values) in s;
    assert s[0] in values;
  }

  lemma {:induction false} LeastIsLeast(values: seq<nat>)
    requires values != []
    ensures Least(values) in values
    ensures forall v :: v in values ==> Least(values) <= v
  {
    if |values| > 1 {
      LeastIsLeast(values[1..]);
      assert forall v :: v in values <==> v == values[0] || v in values[1..];
    }
  }

  lemma OpMatchMeaning(st: Store, i: Inputs, r: Reg, f: Field)
    requires f.lsb <= f.msb
    ensures Eval(OpMatch(r, f), st, i) == OpValue(i.op, Stored(st, r, f), DataBits(f, i.wdata))
  {
    var old_ := Cell(Ref(r, f));
    assert Eval(old_, st, i) == Stored(st, r, f);
    assert Eval(WriteData(f), st, i) == DataBits(f, i.wdata);
    assert Eval(NotE(WriteData(f)), st, i) == Not(DataBits(f, i.wdata));
    assert Eval(OrE(old_, WriteData(f)), st, i) == Or(Stored(st, r, f), DataBits(f, i.wdata));
    assert Eval(AndE(old_, NotE(WriteData(f))), st, i) == And(Stored(st, r, f), Not(DataBits(f, i.wdata)));
  }

  lemma WriteExprMeaning(st: Store, i: Inputs, r: Reg, f: Field)
    requires f.lsb <= f.msb
    ensures Eval(WriteExpr(r, f), st, i)
         == Legalise(f, OpValue(i.op, Stored(st, r, f), DataBits(f, i.wdata)))
  {
    OpMatchMeaning(st, i, r, f);
    match f.warl
    case None =>
    case Some(Mask(m)) =>
      assert Eval(Lit(m, f.Width()), st, i) == FromNat(m, f.Width());
    case Some(Enum(values)) =>
      var v, legal := Eval(OpMatch(r, f), st, i), SortedSet(values);
      if values != [] { SortedSetLeast(values); }
      assert IsLegal(v, legal, f.Width()) <==> IsLegal(v, values, f.Width()) by {
        if k :| 0 <= k < |legal| && v == FromNat(legal[k], f.Width()) {
          assert legal[k] in values;
        }
        if k :| 0 <= k < |values| && v == FromNat(values[k], f.Width()) {
          assert values[k] in legal;
        }
      }
  }

  lemma WriteMeaning(d: Design, st: Store, i: Inputs, r: Reg, f: Field, cur: BitVec)
    requires f.lsb <= f.msb
    ensures After(FieldStmts(Write, d, r, f), st, i, Ref(r, f), cur)
         == if Writable(f) then Legalise(f, OpValue(i.op, Stored(st, r, f), DataBits(f, i.wdata))) else cur
  {
    if Writable(f) {
      var t, write := Ref(r, f), Assign(Ref(r, f), WriteExpr(r, f));
      WriteExprMeaning(st, i, r, f);
      AfterOne(write, st, i, t, cur);
      if f.trapSignal.Some? {
        var pulse := Assign(Pulse(f.trapSignal.value), Lit(1, 1));
        AfterAppend([write], [pulse], st, i, t, cur);
        AfterOne(pulse, st, i, t, Eval(WriteExpr(r, f), st, i));
      } else {
        assert FieldStmts(Write, d, r, f) == [write];
      }
    }
  }

  // ----- Emitter correctness -----

  ghost predicate Placed(d: Design) {
    forall r, f :: r in d.regs && f in r.fields ==> f.lsb <= f.msb
  }

  lemma BlockMeaning(d: Design, st: Store, i: Inputs, r: Reg, f: Field)
    requires DistinctNames(d.regs) && Placed(d) && r in d.regs && f in r.fields
    ensures After(SeqBlock(d), st, i, Ref(r, f), Stored(st, r, f)) == FieldNext(d, st, i, r, f)
  {
    var t, cur := Ref(r, f), Stored(st, r, f);
    var driven := if f.hwWritable then i.hwif(Member(r, f)) else cur;
    var counted := if CountsNow(d, st, i, f) then Inc(cur) else driven;
    SeqBlockAt(d, st, i, t, cur);
    assert After(PulseResets(Signals(d.regs)), st, i, t, cur) == cur by {
      PulseResetsAt(Signals(d.regs), st, i, t, cur);
    }
    assert After(AllStmts(Drive, d, d.regs), st, i, t, cur) == driven by {
      SectionAt(Drive, d, st, i, d.regs, r, f, cur);
      DriveMeaning(d, st, i, r, f, cur);
    }
    assert After(AllStmts(Count, d, d.regs), st, i, t, driven) == counted by {
      SectionAt(Count, d, st, i, d.regs, r, f, driven);
      CountMeaning(d, st, i, r, f, driven);
    }
    FireBlockAt(d, st, i, t, counted);
    SectionAt(Write, d, st, i, d.regs, r, f, counted);
    WriteMeaning(d, st, i, r, f, counted);
  }

  lemma ClockedAt(ss: seq<Stmt>, st: Store, i: Inputs, t: Target)
    requires t in st
    ensures Get(Clocked(ss, st, i), t) == After(ss, st, i, t, st[t])
  {
    ExecIsAfter(ss, st, i, map[], t, st[t]);
  }

  /**
   * The emitted block, run with non-blocking last-write-wins meaning, gives every field of every design
   * with distinct names exactly the per-field rule.
   */
  lemma EmittedFieldCorrect(d: Design, st: Store, i: Inputs, r: Reg, f: Field)
    requires DistinctNames(d.regs) && Placed(d) && r in d.regs && f in r.fields && Ref(r, f) in st
    ensures Stored(Clocked(SeqBlock(d), st, i), r, f) == FieldNext(d, st, i, r, f)
  {
    ClockedAt(SeqBlock(d), st, i, Ref(r, f));
    BlockMeaning(d, st, i, r, f);
  }

  // ----- Trap pulses -----

  /** Some register, or some field, of the design carries the tag. */
  ghost predicate Tagged(regs: seq<Reg>, signal: string) {
    exists r :: r in regs && (r.trapSignal == Some(signal) || exists f :: f in r.fields && f.trapSignal == Some(signal))
  }

  lemma {:induction false} FieldSignalsExact(fields: seq<Field>, signal: string)
    ensures signal in FieldSignals(fields) <==> exists f :: f in fields && f.trapSignal == Some(signal)
  {
    if fields != [] {
      FieldSignalsExact(fields[1..], signal);
      assert forall f :: f in fields <==> f == fields[0] || f in fields[1..];
    }
  }

  /** The pulse registers are those of the tags on registers and fields, and no others. */
  lemma {:induction false} SignalsExact(regs: seq<Reg>, signal: string)
    ensures signal in Signals(regs) <==> Tagged(regs, signal)
  {
    if regs != [] {
      SignalsExact(regs[1..], signal);
      FieldSignalsExact(regs[0].fields, signal);
      assert forall r :: r in regs <==> r == regs[0] || r in regs[1..];
    }
  }

  lemma FieldPulse(k: Section, d: Design, st: Store, i: Inputs, r: Reg, f: Field, signal: string, cur: BitVec)
    ensures After(FieldStmts(k, d, r, f), st, i, Pulse(signal), cur)
         == if k.Write? && Writable(f) && f.trapSignal == Some(signal) then FromNat(1, 1) else cur
  {
    var t, ss := Pulse(signal), FieldStmts(k, d, r, f);
    if ss != [] {
      AfterOne(ss[0], st, i, t, cur);
      if k == Count {
        AfterOne(Increment(r, f), st, i, t, cur);
      }
      if |ss| == 2 {
        AfterAppend([ss[0]], [ss[1]], st, i, t, cur);
        AfterOne(ss[1], st, i, t, cur);
        assert ss == [ss[0]] + [ss[1]];
      } else {
        assert ss == [ss[0]];
      }
    }
  }

  lemma {:induction false} RegPulse(
    k: Section, d: Design, st: Store, i: Inputs, r: Reg, fields: seq<Field>, signal: string, cur: BitVec)
    ensures After(RegStmts(k, d, r, fields), st, i, Pulse(signal), cur)
         == if k.Write? && exists f :: f in fields && Writable(f) && f.trapSignal == Some(signal)
            then FromNat(1, 1) else cur
  {
    if fields != [] {
      var f, rest := fields[0], fields[1..];
      var mid := After(FieldStmts(k, d, r, f), st, i, Pulse(signal), cur);
      AfterAppend(FieldStmts(k, d, r, f), RegStmts(k, d, r, rest), st, i, Pulse(signal), cur);
      FieldPulse(k, d, st, i, r, f, signal, cur);
      RegPulse(k, d, st, i, r, rest, signal, mid);
      assert forall g :: g in fields <==> g == f || g in rest;
    }
  }

  lemma RegSectionPulse(k: Section, d: Design, st: Store, i: Inputs, r: Reg, signal: string, cur: BitVec)
    ensures After(RegSection(k, d, r), st, i, Pulse(signal), cur)
         == if k.Write? && i.addr == r.address && LiveTag(r, signal) then FromNat(1, 1) else cur
  {
    RegPulse(k, d, st, i, r, r.fields, signal, cur);
    if k.Write? {
      var t, block, plain := Pulse(signal), WriteBlock(d, r), RegStmts(Write, d, r, r.fields);
      if r.trapSignal.Some? {
        var pulse := Assign(Pulse(r.trapSignal.value), Lit(1, 1));
        AfterAppend(plain, [pulse], st, i, t, cur);
        AfterOne(pulse, st, i, t, After(plain, st, i, t, cur));
      } else {
        assert block == plain;
      }
      if block != [] {
        AfterOne(If(AddrIs(r.address), block), st, i, t, cur);
      }
    }
  }

  lemma {:induction false} SectionPulse(
    k: Section, d: Design, st: Store, i: Inputs, regs: seq<Reg>, signal: string, cur: BitVec)
    ensures After(AllStmts(k, d, regs), st, i, Pulse(signal), cur)
         == if k.Write? && exists r :: r in regs && i.addr == r.address && LiveTag(r, signal)
            then FromNat(1, 1) else cur
  {
    if regs != [] {
      var r, rest := regs[0], regs[1..];
      var mid := After(RegSection(k, d, r), st, i, Pulse(signal), cur);
      AfterAppend(RegSection(k, d, r), AllStmts(k, d, rest), st, i, Pulse(signal), cur);
      RegSectionPulse(k, d, st, i, r, signal, cur);
      SectionPulse(k, d, st, i, rest, signal, mid);
      assert forall q :: q in regs <==> q == r || q in rest;
    }
  }

  /** The write section of the clocked block decides the pulse; the sections before it leave it low. */
  lemma PulseLowBefore(d: Design, st: Store, i: Inputs, signal: string, cur: BitVec)
    requires signal in Signals(d.regs)
    ensures After(SeqBlock(d), st, i, Pulse(signal), cur) == After(FireBlock(d), st, i, Pulse(signal), FromNat(0, 1))
  {
    var t, low := Pulse(signal), FromNat(0, 1);
    SeqBlockAt(d, st, i, t, cur);
    PulseResetsAt(Signals(d.regs), st, i, t, cur);
    SectionPulse(Drive, d, st, i, d.regs, signal, low);
    SectionPulse(Count, d, st, i, d.regs, signal, low);
  }

  lemma PulseFires(d: Design, st: Store, i: Inputs, signal: string)
    ensures After(FireBlock(d), st, i, Pulse(signal), FromNat(0, 1))
         == [exists r :: r in d.regs && Fires(i, r) && LiveTag(r, signal)]
  {
    FireBlockAt(d, st, i, Pulse(signal), FromNat(0, 1));
    SectionPulse(Write, d, st, i, d.regs, signal, FromNat(0, 1));
    assert FromNat(0, 1) == [false] && FromNat(1, 1) == [true];
  }

  lemma PulseMeaning(d: Design, st: Store, i: Inputs, signal: string)
    requires signal in Signals(d.regs) && Pulse(signal) in st
    ensures Get(Clocked(SeqBlock(d), st, i), Pulse(signal))
         == [exists r :: r in d.regs && Fires(i, r) && LiveTag(r, signal)]
  {
    ClockedAt(SeqBlock(d), st, i, Pulse(signal));
    PulseLowBefore(d, st, i, signal, st[Pulse(signal)]);
    PulseFires(d, st, i, signal);
  }

  /** Each pulse is high exactly in the cycle after a write fired on a register carrying the tag on a live field. */
  lemma EmittedPulseCorrect(d: Design, st: Store, i: Inputs, signal: string)
    requires Tagged(d.regs, signal) && Pulse(signal) in st
    ensures Get(Clocked(SeqBlock(d), st, i), Pulse(signal))
         == [exists r :: r in d.regs && Fires(i, r) && LiveTag(r, signal)]
  {
    SignalsExact(d.regs, signal);
    PulseMeaning(d, st, i, signal);
  }
}
