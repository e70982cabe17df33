/** The access controller, the trap coordinator, and the integrated top that wires them to the CSR file. */
module CsrTop {
  import opened Bits
  import opened Options
  import opened Counting
  import opened Sequences
  import opened CsrDesign
  import opened CsrLayout
  import opened CsrEmitter
  import opened CsrCorrect
  import opened CsrLaws

  // ----- Access controller -----

  function PrivBits(p: string): nat {
    if p == "u" then 0 else if p == "s" then 1 else 3
  }

  predicate HasOverride(r: Reg) {
    r.priv.Some? && (r.priv.value == "u" || r.priv.value == "s" || r.priv.value == "m")
  }

  function Overrides(regs: seq<Reg>): seq<(nat, nat)> {
    if regs == [] then []
    else (if HasOverride(regs[0]) then [(regs[0].address, PrivBits(regs[0].priv.value))] else []) + Overrides(regs[1..])
  }

  function SelectPriv(arms: seq<(nat, nat)>, addr: nat): nat {
    if arms == [] then addr / 256 % 4
    else if arms[0].0 == addr then arms[0].1
    else SelectPriv(arms[1..], addr)
  }

  function MinPriv(d: Design, addr: nat): nat {
    SelectPriv(Overrides(d.regs), addr)
  }

  predicate ReadOnlyAddress(addr: nat) { addr / 1024 % 4 == 3 }

  predicate AccessOk(d: Design, addr: nat, opcode: nat, priv: nat) {
    priv >= MinPriv(d, addr) && !(ReadOnlyAddress(addr) && opcode % 4 != 0)
  }

  datatype Verdict = Verdict(granted: bool, illegal: bool, cause: nat)

  function Access(d: Design, valid: bool, addr: nat, opcode: nat, priv: nat): Verdict {
    Verdict(valid && AccessOk(d, addr, opcode, priv), valid && !AccessOk(d, addr, opcode, priv), 2)
  }

  /** What a register's privilege letter asks for: U is 0, S is 1, M is 3. */
  ghost predicate LeastFor(priv: Option<string>, least: nat) {
    (priv == Some("u") ==> least == 0) && (priv == Some("s") ==> least == 1) && (priv == Some("m") ==> least == 3)
  }

  ghost predicate HasLetter(r: Reg) {
    r.priv == Some("u") || r.priv == Some("s") || r.priv == Some("m")
  }

  /** Register `i` is the first at the address that has a privilege letter. */
  ghost predicate Decides(regs: seq<Reg>, addr: nat, i: nat) {
    && i < |regs| && regs[i].address == addr && HasLetter(regs[i])
    && forall j :: 0 <= j < i ==> !(regs[j].address == addr && HasLetter(regs[j]))
  }

  ghost predicate LeastAmong(regs: seq<Reg>, addr: nat, least: nat) {
    && (forall i: nat :: Decides(regs, addr, i) ==> LeastFor(regs[i].priv, least))
    && ((forall r :: r in regs && r.address == addr ==> !HasLetter(r)) ==> least == addr / 256 % 4)
  }

  /** The least privilege an address asks for: its register's own, if it names one that has one, else bits [9:8]. */
  ghost predicate LeastPriv(d: Design, addr: nat, least: nat) {
    LeastAmong(d.regs, addr, least)
  }

  lemma OverridesStep(regs: seq<Reg>, addr: nat)
    requires regs != []
    ensures SelectPriv(Overrides(regs), addr)
         == if regs[0].address == addr && HasLetter(regs[0]) then PrivBits(regs[0].priv.value)
            else SelectPriv(Overrides(regs[1..]), addr)
  {
    var arm := if HasOverride(regs[0]) then [(regs[0].address, PrivBits(regs[0].priv.value))] else [];
    assert arm != [] ==> Overrides(regs)[1..] == Overrides(regs[1..]);
    assert arm == [] ==> Overrides(regs) == Overrides(regs[1..]);
  }

  /** Without a deciding first register, the rest decides. */
  lemma DecidesTail(regs: seq<Reg>, addr: nat, least: nat)
    requires regs != [] && !(regs[0].address == addr && HasLetter(regs[0]))
    ensures LeastAmong(regs, addr, least) <==> LeastAmong(regs[1..], addr, least)
  {
    forall i: nat ensures Decides(regs[1..], addr, i) <==> Decides(regs, addr, i + 1) {
      if Decides(regs[1..], addr, i) {
        forall j | 0 <= j < i + 1 ensures !(regs[j].address == addr && HasLetter(regs[j])) {
          assert j > 0 ==> regs[j] == regs[1..][j - 1];
        }
      }
      if Decides(regs, addr, i + 1) {
        assert forall j :: 0 <= j < i ==> regs[1..][j] == regs[j + 1];
      }
    }
    assert forall r :: r in regs <==> r == regs[0] || r in regs[1..];
    if LeastAmong(regs[1..], addr, least) {
      forall i: nat | Decides(regs, addr, i) ensures LeastFor(regs[i].priv, least) {
        assert i > 0 && Decides(regs[1..], addr, i - 1) && regs[1..][i - 1] == regs[i];
      }
    }
    if LeastAmong(regs, addr, least) {
      forall i: nat | Decides(regs[1..], addr, i) ensures LeastFor(regs[1..][i].priv, least) {
        assert Decides(regs, addr, i + 1) && regs[1..][i] == regs[i + 1];
      }
    }
  }

  /** The emitted match asks for exactly that. */
  lemma {:induction false} SelectedIsLeast(regs: seq<Reg>, addr: nat, least: nat)
    ensures LeastAmong(regs, addr, least) <==> least == SelectPriv(Overrides(regs), addr)
  {
    if regs != [] {
      OverridesStep(regs, addr);
      if regs[0].address == addr && HasLetter(regs[0]) {
        assert Decides(regs, addr, 0) && regs[0] in regs;
      } else {
        DecidesTail(regs, addr, least);
        SelectedIsLeast(regs[1..], addr, least);
      }
    }
  }

  /** The upper quarter of the 12-bit address space is read-only. */
  lemma ReadOnlyQuarter(addr: nat)
    ensures ReadOnlyAddress(addr) <==> addr % 0x1000 >= 0xC00
  {
  }

  /**
   * At every address, mapped or not, of any design: a valid command is either granted or illegal, never both; the
   * privilege of the first register there that has one, or else address bits [9:8], is the least that is granted; a
   * read-only address refuses writes; and a grant holds at every higher privilege.
   */
  lemma AccessRule(d: Design, valid: bool, addr: nat, opcode: nat, least: nat, low: nat, high: nat)
    requires LeastPriv(d, addr, least) && low <= high
    ensures var v := Access(d, valid, addr, opcode, low);
            && (valid <==> v.granted != v.illegal) && !(v.granted && v.illegal) && v.cause == 2
            && (v.granted <==> valid && !(addr % 0x1000 >= 0xC00 && opcode % 4 != 0) && low >= least)
            && (v.granted ==> Access(d, valid, addr, opcode, high).granted)
  {
    SelectedIsLeast(d.regs, addr, least);
    ReadOnlyQuarter(addr);
  }

  // ----- Trap coordinator: what is emitted -----

  datatype PortName = SavePort(member: string) | RestorePort(member: string) | MirrorPort(member: string)

  datatype Mux = FromPort(p: PortName) | Live(member: string) | OnTrap(t: Mux, e: Mux) | OnXret(t: Mux, e: Mux)

  datatype DriveLine = DriveLine(member: string, value: Mux)

  datatype Coord = Coord(trapEnter: bool, xretEnter: bool, ports: PortName -> BitVec, live: string -> BitVec)

  function EvalMux(m: Mux, c: Coord): BitVec {
    match m
    case FromPort(p) => c.ports(p)
    case Live(x) => c.live(x)
    case OnTrap(t, e) => if c.trapEnter then EvalMux(t, c) else EvalMux(e, c)
    case OnXret(t, e) => if c.xretEnter then EvalMux(t, c) else EvalMux(e, c)
  }

  predicate Uses(m: Mux, p: PortName) {
    match m
    case FromPort(q) => q == p
    case Live(_) => false
    case OnTrap(t, e) => Uses(t, p) || Uses(e, p)
    case OnXret(t, e) => Uses(t, p) || Uses(e, p)
  }

  function DriveValue(r: Reg, f: Field): Mux {
    var m := Member(r, f);
    if f.hwMirror then FromPort(MirrorPort(m))
    else if f.saveOnTrap && f.restoreOnRet then
      OnTrap(FromPort(SavePort(m)), OnXret(FromPort(RestorePort(m)), Live(m)))
    else if f.saveOnTrap then OnTrap(FromPort(SavePort(m)), Live(m))
    else if f.restoreOnRet then OnXret(FromPort(RestorePort(m)), Live(m))
    else Live(m)
  }

  function FieldLines(r: Reg, fields: seq<Field>): seq<DriveLine> {
    if fields == [] then []
    else
      (if fields[0].hwWritable then [DriveLine(Member(r, fields[0]), DriveValue(r, fields[0]))] else [])
      + FieldLines(r, fields[1..])
  }

  function RegLines(regs: seq<Reg>): seq<DriveLine> {
    if regs == [] then [] else FieldLines(regs[0], regs[0].fields) + RegLines(regs[1..])
  }

  function Reserved(): DriveLine {
    DriveLine("_reserved", Live("_reserved"))
  }

  /** Every line of the coordinator; an empty member struct still drives its placeholder. */
  function CoordLines(d: Design): seq<DriveLine> {
    if RegLines(d.regs) == [] then [Reserved()] else RegLines(d.regs)
  }

  /** The lines of one register's members. */
  method EmitDrives(r: Reg) returns (lines: seq<DriveLine>)
    ensures lines == FieldLines(r, r.fields)
  {
    lines := [];
    for j := 0 to |r.fields|
      invariant lines + FieldLines(r, r.fields[j..]) == FieldLines(r, r.fields)
    {
      var f := r.fields[j];
      assert r.fields[j..][0] == f && r.fields[j..][1..] == r.fields[j + 1..];
      var one := if f.hwWritable then [DriveLine(Member(r, f), DriveValue(r, f))] else [];
      Regroup(lines, one, FieldLines(r, r.fields[j + 1..]));
      lines := lines + one;
    }
    assert r.fields[|r.fields|..] == [];
  }

  method EmitTrapCoordinator(d: Design) returns (lines: seq<DriveLine>)
    ensures lines == CoordLines(d)
  {
    lines := [];
    for i := 0 to |d.regs|
      invariant lines + RegLines(d.regs[i..]) == RegLines(d.regs)
    {
      var r := d.regs[i];
      assert d.regs[i..][0] == r && d.regs[i..][1..] == d.regs[i + 1..];
      var block := EmitDrives(r);
      Regroup(lines, block, RegLines(d.regs[i + 1..]));
      lines := lines + block;
    }
    assert d.regs[|d.regs|..] == [];
    if lines == [] { lines := [Reserved()]; }
  }

  // ----- Every member has one driver, every save and mirror port one reader -----

  ghost predicate IsMember(d: Design, r: Reg, f: Field) {
    r in d.regs && f in r.fields && f.hwWritable
  }

  /** Flat member names are unique; the validator does not check this. */
  ghost predicate DistinctMembers(d: Design) {
    forall r, f, q, g :: IsMember(d, r, f) && IsMember(d, q, g) && Member(r, f) == Member(q, g) ==> r == q && f == g
  }

  /** With no `_` in either prefix, the part before the first `_` decides. */
  lemma NameSplits(a: string, b: string, c: string, e: string)
    requires '_' !in a && '_' !in c && a + "_" + b == c + "_" + e
    ensures a == c && b == e
  {
    var s, t := a + "_" + b, c + "_" + e;
    assert s[|a|] == '_' && t[|c|] == '_';
    assert forall k :: 0 <= k < |a| ==> s[k] == a[k] != '_';
    assert forall k :: 0 <= k < |c| ==> t[k] == c[k] != '_';
    assert a == s[..|a|] && c == t[..|c|];
    assert b == s[|a| + 1..] && e == t[|c| + 1..];
  }

  /** Register names without an underscore make the flat member names unique. */
  lemma PlainNamesSuffice(d: Design)
    requires DistinctNames(d.regs) && forall r :: r in d.regs ==> '_' !in r.name
    ensures DistinctMembers(d)
  {
    forall r, f, q, g | IsMember(d, r, f) && IsMember(d, q, g) && Member(r, f) == Member(q, g)
      ensures r == q && f == g
    {
      NameSplits(r.name, f.name, q.name, g.name);
      FindRegByName(d.regs, r);
      FindRegByName(d.regs, q);
      var j :| 0 <= j < |r.fields| && r.fields[j] == f;
      var k :| 0 <= k < |r.fields| && r.fields[k] == g;
    }
  }

  lemma {:induction false} FieldLineOf(r: Reg, fields: seq<Field>, l: DriveLine)
    ensures l in FieldLines(r, fields) <==>
            exists f :: f in fields && f.hwWritable && l == DriveLine(Member(r, f), DriveValue(r, f))
  {
    if fields != [] {
      FieldLineOf(r, fields[1..], l);
      assert forall f :: f in fields <==> f == fields[0] || f in fields[1..];
    }
  }

  ghost predicate LineFor(d: Design, l: DriveLine, r: Reg, f: Field) {
    IsMember(d, r, f) && l == DriveLine(Member(r, f), DriveValue(r, f))
  }

  lemma {:induction false} LineOf(d: Design, regs: seq<Reg>, l: DriveLine)
    requires forall r :: r in regs ==> r in d.regs
    ensures l in RegLines(regs) <==> exists r, f :: r in regs && LineFor(d, l, r, f)
  {
    if regs != [] {
      LineOf(d, regs[1..], l);
      FieldLineOf(regs[0], regs[0].fields, l);
      assert forall r :: r in regs <==> r == regs[0] || r in regs[1..];
      if f :| f in regs[0].fields && f.hwWritable && l == DriveLine(Member(regs[0], f), DriveValue(regs[0], f)) {
        assert LineFor(d, l, regs[0], f);
      }
    }
  }

  /** How many lines satisfy a condition. */
  function Matches(ls: seq<DriveLine>, c: DriveLine -> bool): nat {
    if ls == [] then 0 else (if c(ls[0]) then 1 else 0) + Matches(ls[1..], c)
  }

  lemma {:induction false} MatchesAppend(a: seq<DriveLine>, b: seq<DriveLine>, c: DriveLine -> bool)
    ensures Matches(a + b, c) == Matches(a, c) + Matches(b, c)
  {
    if a == [] {
      assert a + b == b;
    } else {
      assert (a + b)[1..] == a[1..] + b;
      MatchesAppend(a[1..], b, c);
    }
  }

  lemma {:induction false} NoMatches(ls: seq<DriveLine>, c: DriveLine -> bool)
    requires forall l :: l in ls ==> !c(l)
    ensures Matches(ls, c) == 0
  {
    if ls != [] { NoMatches(ls[1..], c); }
  }

  /** `c` holds of the line of field `f` and of no other member's line. */
  ghost predicate Singles(d: Design, c: DriveLine -> bool, r: Reg, f: Field) {
    forall q, g :: IsMember(d, q, g) ==> (c(DriveLine(Member(q, g), DriveValue(q, g))) <==> q == r && g == f)
  }

  lemma {:induction false} OneFieldMatch(d: Design, c: DriveLine -> bool, r: Reg, f: Field, q: Reg, fields: seq<Field>)
    requires Singles(d, c, r, f) && IsMember(d, r, f)
    requires q in d.regs && DistinctFields(fields) && forall g :: g in fields ==> g in q.fields
    ensures Matches(FieldLines(q, fields), c) == if q == r && f in fields then 1 else 0
  {
    if fields != [] {
      var g, rest := fields[0], fields[1..];
      OneFieldMatch(d, c, r, f, q, rest);
      var one := if g.hwWritable then [DriveLine(Member(q, g), DriveValue(q, g))] else [];
      MatchesAppend(one, FieldLines(q, rest), c);
      assert one != [] ==> one[1..] == [] && IsMember(d, q, g);
      assert g !in rest by {
        assert forall j :: 0 < j < |fields| ==> fields[j].name != g.name;
      }
    }
  }

  lemma {:induction false} OneMatch(d: Design, c: DriveLine -> bool, r: Reg, f: Field, regs: seq<Reg>)
    requires Singles(d, c, r, f) && IsMember(d, r, f)
    requires DistinctNames(regs) && forall q :: q in regs ==> q in d.regs
    ensures Matches(RegLines(regs), c) == if r in regs then 1 else 0
  {
    if regs != [] {
      var q, rest := regs[0], regs[1..];
      OneMatch(d, c, r, f, rest);
      OneFieldMatch(d, c, r, f, q, q.fields);
      MatchesAppend(FieldLines(q, q.fields), RegLines(rest), c);
      assert q !in rest by {
        assert forall j :: 0 < j < |regs| ==> regs[j].name != q.name;
      }
    }
  }

  lemma MatchedOnce(d: Design, c: DriveLine -> bool, r: Reg, f: Field)
    requires Named(d) && Singles(d, c, r, f) && IsMember(d, r, f)
    ensures Matches(CoordLines(d), c) == 1
  {
    OneMatch(d, c, r, f, d.regs);
  }

  /** Every member of the drive struct is assigned by exactly one line. */
  lemma MemberDrivenOnce(d: Design, r: Reg, f: Field)
    requires Named(d) && DistinctMembers(d) && IsMember(d, r, f)
    ensures Matches(CoordLines(d), (l: DriveLine) => l.member == Member(r, f)) == 1
  {
    MatchedOnce(d, (l: DriveLine) => l.member == Member(r, f), r, f);
  }

  // ----- Unique names are exactly what a single driver needs -----

  ghost predicate DrivenOnce(d: Design, r: Reg, f: Field) {
    Matches(CoordLines(d), (l: DriveLine) => l.member == Member(r, f)) == 1
  }

  lemma {:induction false} SomeFieldMatches(r: Reg, fields: seq<Field>, f: Field, c: DriveLine -> bool)
    requires f in fields && f.hwWritable && c(DriveLine(Member(r, f), DriveValue(r, f)))
    ensures Matches(FieldLines(r, fields), c) >= 1
  {
    var g, rest := fields[0], fields[1..];
    var one := if g.hwWritable then [DriveLine(Member(r, g), DriveValue(r, g))] else [];
    MatchesAppend(one, FieldLines(r, rest), c);
    if g == f {
      assert one[1..] == [];
    } else {
      SomeFieldMatches(r, rest, f, c);
    }
  }

  /** Two different registers with a matching line each contribute two matches. */
  lemma {:induction false} RegMatches(regs: seq<Reg>, r: Reg, f: Field, q: Reg, g: Field, c: DriveLine -> bool)
    requires r in regs ==> f in r.fields && f.hwWritable && c(DriveLine(Member(r, f), DriveValue(r, f)))
    requires q in regs ==> g in q.fields && g.hwWritable && c(DriveLine(Member(q, g), DriveValue(q, g)))
    requires r != q
    ensures Matches(RegLines(regs), c) >= (if r in regs then 1 else 0) + (if q in regs then 1 else 0)
  {
    if regs != [] {
      MatchesAppend(FieldLines(regs[0], regs[0].fields), RegLines(regs[1..]), c);
      RegMatches(regs[1..], r, f, q, g, c);
      if regs[0] == r {
        SomeFieldMatches(r, r.fields, f, c);
      } else if regs[0] == q {
        SomeFieldMatches(q, q.fields, g, c);
      }
    }
  }

  /** Equal member names in one register are the same field. */
  lemma SameRegister(d: Design, r: Reg, f: Field, g: Field)
    requires Named(d) && IsMember(d, r, f) && IsMember(d, r, g) && Member(r, f) == Member(r, g)
    ensures f == g
  {
    var n := |r.name| + 1;
    assert f.name == Member(r, f)[n..] && g.name == Member(r, g)[n..];
    var j :| 0 <= j < |r.fields| && r.fields[j] == f;
    var k :| 0 <= k < |r.fields| && r.fields[k] == g;
  }

  lemma ClashDrivesTwice(d: Design, r: Reg, f: Field, q: Reg, g: Field)
    requires Named(d) && IsMember(d, r, f) && IsMember(d, q, g) && Member(r, f) == Member(q, g) && (r != q || f != g)
    ensures Matches(CoordLines(d), (l: DriveLine) => l.member == Member(r, f)) >= 2
  {
    if r == q {
      SameRegister(d, r, f, g);
    } else {
      RegMatches(d.regs, r, f, q, g, (l: DriveLine) => l.member == Member(r, f));
    }
  }

  /**
   * Every member of the drive struct is assigned by exactly one line if and only if the flat member names are
   * unique, which the validator does not check.
   */
  lemma DrivenOnceExact(d: Design)
    requires Named(d)
    ensures (forall r, f :: IsMember(d, r, f) ==> DrivenOnce(d, r, f)) <==> DistinctMembers(d)
  {
    if DistinctMembers(d) {
      forall r, f | IsMember(d, r, f) ensures DrivenOnce(d, r, f) { MemberDrivenOnce(d, r, f); }
    } else {
      var r, f, q, g :| IsMember(d, r, f) && IsMember(d, q, g) && Member(r, f) == Member(q, g) && !(r == q && f == g);
      ClashDrivesTwice(d, r, f, q, g);
      assert !DrivenOnce(d, r, f);
    }
  }

  function RwField(name: string): Field {
    Field(name, 0, 0, true, true, true, true, 0, false, None, None, None, false, false, false, None, None)
  }

  /** Register `a` with field `b_c`, and register `a_b` with field `c`. */
  function Colliding(): Design {
    Design(32, [
      Reg("a", 1, 32, false, [RwField("b_c")], None, None), Reg("a_b", 2, 32, false, [RwField("c")], None, None)])
  }

  /**
   * Unique member names are a real hypothesis: this design is accepted and its register and field names are
   * distinct, and yet one member of the drive struct is assigned by two lines.
   */
  lemma CollidingMemberDrivenTwice()
    ensures var d := Colliding();
            && Named(d) && Validate(d).None? && !DistinctMembers(d)
            && Matches(CoordLines(d), (l: DriveLine) => l.member == "a_b_c") == 2
  {
    var d := Colliding();
    var r, q := d.regs[0], d.regs[1];
    var f, g := r.fields[0], q.fields[0];
    assert Member(r, f) == "a_b_c" == Member(q, g);
    assert IsMember(d, r, f) && IsMember(d, q, g);
    ValidateExact(d);
    assert |r.name| != |q.name|;
    var c := (l: DriveLine) => l.member == "a_b_c";
    var one, two := DriveLine(Member(r, f), DriveValue(r, f)), DriveLine(Member(q, g), DriveValue(q, g));
    assert FieldLines(r, r.fields) == [one] && FieldLines(q, q.fields) == [two] by {
      assert r.fields[1..] == [] && q.fields[1..] == [];
    }
    assert RegLines(d.regs) == [one, two] by {
      assert d.regs[1..] == [q] && d.regs[1..][1..] == [];
    }
    MatchesAppend([one], [two], c);
    assert [one, two] == [one] + [two] && [one][1..] == [] && [two][1..] == [];
  }

  predicate HasPort(f: Field, p: PortName) {
    match p
    case SavePort(_) => f.saveOnTrap
    case RestorePort(_) => f.restoreOnRet
    case MirrorPort(_) => f.hwMirror
  }

  /** The ports a field's line reads: its own, except that a mirror reads nothing else. */
  lemma DriveUses(r: Reg, f: Field, p: PortName)
    ensures Uses(DriveValue(r, f), p) <==>
            p.member == Member(r, f) && HasPort(f, p) && (f.hwMirror ==> p.MirrorPort?)
  {
    var m := Member(r, f);
    var tail := OnXret(FromPort(RestorePort(m)), Live(m));
    assert Uses(FromPort(SavePort(m)), p) <==> p == SavePort(m);
    assert Uses(FromPort(RestorePort(m)), p) <==> p == RestorePort(m);
    assert Uses(tail, p) <==> p == RestorePort(m);
  }

  /**
   * In an accepted design every save and mirror port feeds exactly one line. A restore port does if its
   * field is hardware-writable; the validator does not ask for that, and without it the port feeds none.
   */
  lemma PortsFeedOneDrive(d: Design, r: Reg, f: Field, p: PortName)
    requires Named(d) && DistinctMembers(d) && Validate(d).None?
    requires r in d.regs && f in r.fields && p.member == Member(r, f) && HasPort(f, p)
    requires forall q, g :: q in d.regs && g in q.fields && Member(q, g) == p.member ==> q == r && g == f
    ensures p.SavePort? || p.MirrorPort? ==> f.hwWritable
    ensures Matches(CoordLines(d), (l: DriveLine) => Uses(l.value, p)) == if f.hwWritable then 1 else 0
  {
    ValidateExact(d);
    assert AcceptedField(d, f);
    var c := (l: DriveLine) => Uses(l.value, p);
    forall q, g | IsMember(d, q, g) ensures c(DriveLine(Member(q, g), DriveValue(q, g))) <==> q == r && g == f {
      DriveUses(q, g, p);
      assert AcceptedField(d, g);
    }
    if f.hwWritable {
      MatchedOnce(d, c, r, f);
    } else {
      forall l | l in CoordLines(d) ensures !c(l) {
        if l in RegLines(d.regs) {
          LineOf(d, d.regs, l);
          var q, g :| q in d.regs && LineFor(d, l, q, g);
        }
      }
      NoMatches(CoordLines(d), c);
    }
  }

  /** A restore tag on a field that hardware cannot write. */
  function Unwritable(): Field {
    Field("f", 0, 0, true, true, true, false, 0, false, None, None, None, false, true, false, None, None)
  }

  function Unfed(): Design {
    Design(32, [Reg("r", 0x300, 32, false, [Unwritable()], None, None)])
  }

  /** The validator accepts it, and its restore port feeds no line. */
  lemma RestorePortUnfed()
    ensures var d, r, p := Unfed(), Unfed().regs[0], RestorePort(Member(Unfed().regs[0], Unwritable()));
            && Named(d) && DistinctMembers(d) && Validate(d).None? && HasPort(Unwritable(), p)
            && Matches(CoordLines(d), (l: DriveLine) => Uses(l.value, p)) == 0
  {
    var d, f := Unfed(), Unwritable();
    var r := d.regs[0];
    assert r.fields[0] == f && AcceptedField(d, f);
    ValidateExact(d);
    PortsFeedOneDrive(d, r, f, RestorePort(Member(r, f)));
  }

  // ----- What a member is driven to -----

  /** The value on a member of the drive struct: its line's value. */
  function Driven(lines: seq<DriveLine>, c: Coord, member: string): BitVec {
    if lines == [] then []
    else if lines[0].member == member then EvalMux(lines[0].value, c)
    else Driven(lines[1..], c, member)
  }

  /** The coordinator's rule: mirror, else save on trap entry, else restore on return, else pass the live value. */
  function TrapMux(r: Reg, f: Field, c: Coord): BitVec {
    var m := Member(r, f);
    if f.hwMirror then c.ports(MirrorPort(m))
    else if c.trapEnter && f.saveOnTrap then c.ports(SavePort(m))
    else if c.xretEnter && f.restoreOnRet then c.ports(RestorePort(m))
    else c.live(m)
  }

  lemma DriveValueMeaning(r: Reg, f: Field, c: Coord)
    ensures EvalMux(DriveValue(r, f), c) == TrapMux(r, f, c)
  {
    var m := Member(r, f);
    assert EvalMux(FromPort(SavePort(m)), c) == c.ports(SavePort(m));
    assert EvalMux(FromPort(RestorePort(m)), c) == c.ports(RestorePort(m));
    assert EvalMux(Live(m), c) == c.live(m);
    assert EvalMux(OnXret(FromPort(RestorePort(m)), Live(m)), c)
        == if c.xretEnter then c.ports(RestorePort(m)) else c.live(m);
  }

  lemma {:induction false} DrivenBy(lines: seq<DriveLine>, c: Coord, l: DriveLine)
    requires l in lines && forall k :: k in lines && k.member == l.member ==> k == l
    ensures Driven(lines, c, l.member) == EvalMux(l.value, c)
  {
    if lines[0].member != l.member { DrivenBy(lines[1..], c, l); }
  }

  lemma CoordinatorCorrect(d: Design, r: Reg, f: Field, c: Coord)
    requires Named(d) && DistinctMembers(d) && IsMember(d, r, f)
    ensures Driven(CoordLines(d), c, Member(r, f)) == TrapMux(r, f, c)
  {
    var l := DriveLine(Member(r, f), DriveValue(r, f));
    LineOf(d, d.regs, l);
    assert LineFor(d, l, r, f);
    assert l in RegLines(d.regs);
    forall k | k in CoordLines(d) && k.member == l.member ensures k == l {
      LineOf(d, d.regs, k);
      var q, g :| q in d.regs && LineFor(d, k, q, g);
    }
    DrivenBy(CoordLines(d), c, l);
    DriveValueMeaning(r, f, c);
  }

  // ----- Integrated top -----

  datatype TopIn = TopIn(
    cmdValid: bool, addr: nat, opcode: nat, wdata: BitVec, priv: nat,
    trapEnter: bool, xretEnter: bool, trapPorts: PortName -> BitVec, countPorts: string -> bool)

  /** The live member values are tied to zero in this top. */
  function ZeroLive(d: Design): string -> BitVec {
    (m: string) => Zeros(WidthOf(d.regs, m))
  }

  function WidthOf(regs: seq<Reg>, m: string): nat {
    if regs == [] then 0
    else if exists k :: 0 <= k < |regs[0].fields|
                        && regs[0].fields[k].hwWritable && Member(regs[0], regs[0].fields[k]) == m then
      FieldWidthOf(regs[0], regs[0].fields, m)
    else WidthOf(regs[1..], m)
  }

  function FieldWidthOf(r: Reg, fields: seq<Field>, m: string): nat {
    if fields == [] then 0
    else if fields[0].hwWritable && Member(r, fields[0]) == m then fields[0].Width()
    else FieldWidthOf(r, fields[1..], m)
  }

  lemma {:induction false} FieldWidthFound(r: Reg, fields: seq<Field>, f: Field)
    requires f in fields && f.hwWritable
    requires forall g :: g in fields && g.hwWritable && Member(r, g) == Member(r, f) ==> g == f
    ensures FieldWidthOf(r, fields, Member(r, f)) == f.Width()
  {
    if !(fields[0].hwWritable && Member(r, fields[0]) == Member(r, f)) {
      FieldWidthFound(r, fields[1..], f);
    }
  }

  lemma {:induction false} WidthFound(d: Design, regs: seq<Reg>, r: Reg, f: Field)
    requires DistinctMembers(d) && IsMember(d, r, f) && r in regs && forall q :: q in regs ==> q in d.regs
    ensures WidthOf(regs, Member(r, f)) == f.Width()
  {
    var q := regs[0];
    forall g | g in q.fields && g.hwWritable && Member(q, g) == Member(r, f) ensures q == r && g == f {
      assert IsMember(d, q, g);
    }
    if q == r {
      var k :| 0 <= k < |q.fields| && q.fields[k] == f;
      FieldWidthFound(r, r.fields, f);
    } else {
      assert forall k :: 0 <= k < |q.fields| ==> q.fields[k] in q.fields;
      WidthFound(d, regs[1..], r, f);
    }
  }

  function TopInputs(d: Design, t: TopIn): Inputs {
    var c := Coord(t.trapEnter, t.xretEnter, t.trapPorts, ZeroLive(d));
    Inputs(
      t.cmdValid, Access(d, t.cmdValid, t.addr, t.opcode, t.priv).granted, t.opcode % 4, t.addr, t.wdata,
      t.countPorts, (m: string) => Driven(CoordLines(d), c, m))
  }

  /** The command may write: valid, a write operation at a writable address, and privileged enough for it. */
  ghost predicate TopWrites(d: Design, t: TopIn, r: Reg, f: Field, least: nat) {
    && t.cmdValid && t.opcode % 4 != 0 && t.addr % 0x1000 < 0xC00 && t.priv >= least
    && t.addr == r.address && f.swWritable && !f.wpri
  }

  /** What the trap side drives into a field: mirror port, save port, restore port, or zero. */
  function TopDrive(t: TopIn, r: Reg, f: Field): BitVec {
    var m := r.name + "_" + f.name;
    if f.hwMirror then t.trapPorts(MirrorPort(m))
    else if t.trapEnter && f.saveOnTrap then t.trapPorts(SavePort(m))
    else if t.xretEnter && f.restoreOnRet then t.trapPorts(RestorePort(m))
    else Zeros(f.Width())
  }

  type TopRun = nat -> TopIn

  ghost predicate TopStepsAt(d: Design, run: TopRun, ss: Stores, t: nat) {
    ss(t + 1) == Clocked(SeqBlock(d), ss(t), TopInputs(d, run(t)))
  }

  /** The stores the integrated top goes through from reset. */
  ghost predicate IsTopRun(d: Design, run: TopRun, ss: Stores) {
    ss(0) == ResetStore(d) && forall t: nat :: TopStepsAt(d, run, ss, t)
  }

  /** A command that can change anything: granted, not a plain read, and addressed to a register. */
  ghost predicate Effective(d: Design, t: TopIn) {
    && Access(d, t.cmdValid, t.addr, t.opcode, t.priv).granted
    && t.opcode % 4 != 0
    && exists r :: r in d.regs && r.address == t.addr
  }

  /** The run with every denied, read-only-operation or unmapped command replaced by an idle cycle. */
  ghost function EraseOne(d: Design, t: TopIn): TopIn {
    if Effective(d, t) then t else t.(cmdValid := false)
  }

  ghost function Erased(d: Design, run: TopRun): TopRun {
    (t: nat) => EraseOne(d, run(t))
  }

  lemma {:induction false} SignalTargets(d: Design, regs: seq<Reg>, t: Target)
    ensures t in ResetRegs(regs) <==> exists r, f :: r in regs && f in r.fields && t == Ref(r, f)
  {
    if regs != [] {
      SignalTargets(d, regs[1..], t);
      ResetFieldsAt(regs[0], regs[0].fields, t);
      assert forall r :: r in regs <==> r == regs[0] || r in regs[1..];
    }
  }

  lemma ClockedKeys(ss: seq<Stmt>, st: Store, i: Inputs)
    ensures Clocked(ss, st, i).Keys == st.Keys
  {
  }

  lemma StoreOfReset(d: Design)
    ensures StoreOf(d, ResetStore(d))
  {
    forall u: Target
      ensures u in ResetStore(d) <==>
        (u.Pulse? && u.signal in Signals(d.regs)) || exists r, f :: r in d.regs && f in r.fields && u == Ref(r, f)
    {
      SignalTargets(d, d.regs, u);
      ResetPulsesAt(Signals(d.regs), u);
    }
  }

  lemma SameKeys(d: Design, a: Store, b: Store)
    requires StoreOf(d, a) && a.Keys == b.Keys
    ensures StoreOf(d, b)
  {
    assert forall t :: t in b <==> t in a;
  }

  lemma StoreOfStep(d: Design, run: TopRun, ss: Stores, t: nat)
    requires TopStepsAt(d, run, ss, t) && StoreOf(d, ss(t))
    ensures StoreOf(d, ss(t + 1))
  {
    ClockedKeys(SeqBlock(d), ss(t), TopInputs(d, run(t)));
    SameKeys(d, ss(t), ss(t + 1));
  }

  lemma StoreOfAlways(d: Design, run: TopRun, ss: Stores, t: nat)
    requires IsTopRun(d, run, ss)
    ensures StoreOf(d, ss(t))
  {
    var p := (u: nat) => StoreOf(d, ss(u));
    StoreOfReset(d);
    forall u: nat ensures KeptAt(p, u) {
      assert TopStepsAt(d, run, ss, u);
      if StoreOf(d, ss(u)) { StoreOfStep(d, run, ss, u); }
    }
    Always(p, t);
  }

  /** A denied, read-only-operation or unmapped command fires on no register. */
  lemma IneffectiveFires(d: Design, t: TopIn, r: Reg)
    requires !Effective(d, t) && r in d.regs
    ensures !Fires(TopInputs(d, t), r) && !Fires(TopInputs(d, t.(cmdValid := false)), r)
  {
  }

  lemma SameWithoutFiring(d: Design, st: Store, i: Inputs, j: Inputs, r: Reg, f: Field)
    requires !Fires(i, r) && !Fires(j, r) && i.ports == j.ports && i.hwif(Member(r, f)) == j.hwif(Member(r, f))
    ensures FieldNext(d, st, i, r, f) == FieldNext(d, st, j, r, f)
  {
  }

  lemma SameDrives(d: Design, t: TopIn, m: string)
    ensures TopInputs(d, t).ports == TopInputs(d, t.(cmdValid := false)).ports
    ensures TopInputs(d, t).hwif(m) == TopInputs(d, t.(cmdValid := false)).hwif(m)
  {
  }

  lemma ErasedStep(d: Design, st: Store, t: TopIn)
    requires Named(d) && StoreOf(d, st)
    ensures Clocked(SeqBlock(d), st, TopInputs(d, t)) == Clocked(SeqBlock(d), st, TopInputs(d, EraseOne(d, t)))
  {
    if !Effective(d, t) {
      var i, j := TopInputs(d, t), TopInputs(d, t.(cmdValid := false));
      forall r | r in d.regs ensures !Fires(i, r) && !Fires(j, r) { IneffectiveFires(d, t, r); }
      forall r, f | r in d.regs && f in r.fields ensures FieldNext(d, st, i, r, f) == FieldNext(d, st, j, r, f) {
        SameDrives(d, t, Member(r, f));
        SameWithoutFiring(d, st, i, j, r, f);
      }
      SameStore(d, st, i, j);
    }
  }

  lemma ErasedCycle(d: Design, run: TopRun, ss: Stores, erased: Stores, t: nat)
    requires Named(d) && IsTopRun(d, run, ss) && IsTopRun(d, Erased(d, run), erased) && ss(t) == erased(t)
    ensures ss(t + 1) == erased(t + 1)
  {
    StoreOfAlways(d, run, ss, t);
    ErasedStep(d, ss(t), run(t));
    assert TopStepsAt(d, run, ss, t) && TopStepsAt(d, Erased(d, run), erased, t);
  }

  /**
   * Denied commands are erasable: every run of the integrated top goes through the same states as the run with
   * every denied, read-only-operation or unmapped command replaced by an idle cycle: storage, counters, pulses
   * and hardware-driven fields alike.
   */
  lemma DeniedCommandsErasable(d: Design, run: TopRun, ss: Stores, erased: Stores, t: nat)
    requires Named(d) && IsTopRun(d, run, ss) && IsTopRun(d, Erased(d, run), erased)
    ensures ss(t) == erased(t)
  {
    var p := (u: nat) => ss(u) == erased(u);
    forall u: nat ensures KeptAt(p, u) {
      if ss(u) == erased(u) { ErasedCycle(d, run, ss, erased, u); }
    }
    Always(p, t);
  }

  /** Which commands are erased, told by the command alone. */
  lemma ErasedExactly(d: Design, run: TopRun, t: nat, least: nat)
    requires LeastPriv(d, run(t).addr, least)
    ensures var c := run(t);
            Erased(d, run)(t)
            == if c.cmdValid && c.priv >= least && c.opcode % 4 != 0 && c.addr % 0x1000 < 0xC00
                  && exists r :: r in d.regs && r.address == c.addr
               then c else c.(cmdValid := false)
  {
    AccessRule(d, run(t).cmdValid, run(t).addr, run(t).opcode, least, run(t).priv, run(t).priv);
  }

  // ----- What the top does to each field -----

  lemma TopFires(d: Design, t: TopIn, r: Reg, f: Field, least: nat)
    requires r in d.regs && LeastPriv(d, t.addr, least)
    ensures Fires(TopInputs(d, t), r) && f.swWritable && !f.wpri <==> TopWrites(d, t, r, f, least)
  {
    AccessRule(d, t.cmdValid, t.addr, t.opcode, least, t.priv, t.priv);
  }

  lemma TopDriven(d: Design, t: TopIn, r: Reg, f: Field)
    requires Named(d) && DistinctMembers(d) && IsMember(d, r, f)
    ensures TopInputs(d, t).hwif(Member(r, f)) == TopDrive(t, r, f)
  {
    var c := Coord(t.trapEnter, t.xretEnter, t.trapPorts, ZeroLive(d));
    CoordinatorCorrect(d, r, f, c);
    WidthFound(d, d.regs, r, f);
  }

  /** The next value of a field that does not count. */
  ghost predicate TopNext(d: Design, t: TopIn, old_: BitVec, next: BitVec, r: Reg, f: Field, least: nat)
    requires f.lsb <= f.msb
  {
    var data := Slice(t.wdata, f.msb, f.lsb);
    next
    == if TopWrites(d, t, r, f, least) then
         Legalise(f, match t.opcode % 4 case 1 => data case 2 => Or(old_, data) case _ => And(old_, Not(data)))
       else if f.hwWritable then TopDrive(t, r, f)
       else old_
  }

  lemma TopWritten(d: Design, st: Store, t: TopIn, r: Reg, f: Field, least: nat)
    requires f.lsb <= f.msb && Fires(TopInputs(d, t), r) && TopWrites(d, t, r, f, least)
    ensures TopNext(d, t, Stored(st, r, f), FieldNext(d, st, TopInputs(d, t), r, f), r, f, least)
  {
  }

  lemma TopUnwritten(d: Design, st: Store, t: TopIn, r: Reg, f: Field, least: nat)
    requires f.lsb <= f.msb && f.incrementWhen.None? && f.incrementHighOf.None?
    requires !(Fires(TopInputs(d, t), r) && Writable(f)) && !TopWrites(d, t, r, f, least)
    requires f.hwWritable ==> TopInputs(d, t).hwif(Member(r, f)) == TopDrive(t, r, f)
    ensures TopNext(d, t, Stored(st, r, f), FieldNext(d, st, TopInputs(d, t), r, f), r, f, least)
  {
  }

  lemma TopFieldNext(d: Design, st: Store, t: TopIn, r: Reg, f: Field, least: nat)
    requires Named(d) && DistinctMembers(d) && LeastPriv(d, t.addr, least)
    requires r in d.regs && f in r.fields && f.incrementWhen.None? && f.incrementHighOf.None?
    ensures TopNext(d, t, Stored(st, r, f), FieldNext(d, st, TopInputs(d, t), r, f), r, f, least)
  {
    TopFires(d, t, r, f, least);
    if TopWrites(d, t, r, f, least) {
      TopWritten(d, st, t, r, f, least);
    } else {
      if f.hwWritable { TopDriven(d, t, r, f); }
      TopUnwritten(d, st, t, r, f, least);
    }
  }

  lemma TopStored(d: Design, run: TopRun, ss: Stores, r: Reg, f: Field, t: nat)
    requires IsTopRun(d, run, ss) && r in d.regs && f in r.fields
    ensures Ref(r, f) in ss(t)
  {
    StoreOfAlways(d, run, ss, t);
  }

  /**
   * The integrated top, in every run and for every field that does not count: a command that is valid, privileged
   * enough and aimed at a writable address puts its legalised bits into the fields that software may write;
   * otherwise a hardware-writable field takes its mirror port, its save port on a trap, its restore port on a
   * return, or zero; and any other field holds.
   */
  lemma TopFieldLaw(d: Design, run: TopRun, ss: Stores, t: nat, r: Reg, f: Field, least: nat)
    requires Named(d) && DistinctMembers(d) && IsTopRun(d, run, ss)
    requires r in d.regs && f in r.fields && f.incrementWhen.None? && f.incrementHighOf.None?
    requires LeastPriv(d, run(t).addr, least)
    ensures TopNext(d, run(t), Stored(ss(t), r, f), Stored(ss(t + 1), r, f), r, f, least)
  {
    TopStored(d, run, ss, r, f, t);
    TopFieldNext(d, ss(t), run(t), r, f, least);
    EmittedFieldCorrect(d, ss(t), TopInputs(d, run(t)), r, f);
    assert TopStepsAt(d, run, ss, t);
  }

  /** A counter of the top without a write advances when its own enable port is high, and else holds. */
  lemma TopCounterLaw(d: Design, run: TopRun, ss: Stores, t: nat, r: Reg, f: Field, least: nat)
    requires Named(d) && IsTopRun(d, run, ss) && LeastPriv(d, run(t).addr, least)
    requires r in d.regs && f in r.fields && f.incrementWhen.Some? && !f.hwWritable
    requires !TopWrites(d, run(t), r, f, least)
    ensures Stored(ss(t + 1), r, f)
         == if run(t).countPorts(f.incrementWhen.value) then Inc(Stored(ss(t), r, f)) else Stored(ss(t), r, f)
  {
    TopStored(d, run, ss, r, f, t);
    TopFires(d, run(t), r, f, least);
    EmittedFieldCorrect(d, ss(t), TopInputs(d, run(t)), r, f);
    assert TopStepsAt(d, run, ss, t);
  }

  /** A design without hardware-writable fields still drives one placeholder member, from its own live value. */
  lemma EmptyDrivesPlaceholder(d: Design, c: Coord)
    requires forall r, f :: !IsMember(d, r, f)
    ensures |CoordLines(d)| == 1 && CoordLines(d)[0].member == "_reserved"
    ensures EvalMux(CoordLines(d)[0].value, c) == c.live("_reserved")
  {
    if RegLines(d.regs) != [] {
      assert RegLines(d.regs)[0] in RegLines(d.regs);
      LineOf(d, d.regs, RegLines(d.regs)[0]);
    }
  }
}
