/** The generator of the PLIC logic module: what it emits, what that means, and that it is the arbiter. */
module PlicEmitter {
  import opened Bits
  import opened Options
  import opened PlicArbiter

  // ----- The emitted language: one wire per `let`, one expression per register and port -----

  datatype Kind = CandK | TakeK | WinIdK | WinPrioK | SetBitK | SetMaskK | ClrBitK | ClrMaskK

  datatype Name = Name(ctx: nat, kind: Kind, i: nat)

  datatype BExpr =
    | Source(i: nat)
    | Enabled(ctx: nat, i: nat)
    | Unclaimed(ctx: nat, i: nat)
    | ReadPulse(ctx: nat)
    | WritePulse(ctx: nat)
    | WrPulseD(ctx: nat)
    | BVar(name: Name)
    | AndB(a: BExpr, b: BExpr)
    | OrB(a: BExpr, b: BExpr)
    | IsZero(e: NExpr)
    | NotZero(e: NExpr)
    | Greater(l: NExpr, r: NExpr)

  datatype NExpr =
    | NLit(v: nat, width: nat)
    | Prio(i: nat)
    | Threshold(ctx: nat)
    | ClaimReg(ctx: nat)
    | NVar(name: Name)
    | NIf(c: BExpr, t: NExpr, e: NExpr)

  datatype MExpr =
    | MLit(bits: BitVec)
    | Claimed(ctx: nat)
    | MVar(name: Name)
    | MIf(c: BExpr, t: MExpr, e: MExpr)
    | MMatch(scrut: NExpr, arms: seq<(nat, BitVec)>, default: BitVec)
    | MOr(x: MExpr, y: MExpr)
    | MAndNot(x: MExpr, y: MExpr)

  /** A number wire has a declared width; the masks are bit vectors and carry theirs. */
  datatype Let = LetB(x: Name, b: BExpr) | LetN(x: Name, width: nat, n: NExpr) | LetM(x: Name, m: MExpr)

  /** One entry per context in each of the last four; `intrConcat` lists the most significant bit first. */
  datatype LogicModule = LogicModule(
    lets: seq<Let>,
    wrPulseNext: seq<BExpr>,
    claimedNext: seq<MExpr>,
    claimDrive: seq<NExpr>,
    intrConcat: seq<BExpr>)

  // ----- Meaning: wires settle to any assignment satisfying every `let`, cut to the declared widths -----

  datatype CtxPorts = CtxPorts(
    enable: BitVec, threshold: nat, claim: nat, claimed: BitVec, wrPulseD: bool, readPulse: bool, writePulse: bool)

  datatype Ports = Ports(source: BitVec, prio: seq<nat>, ctx: seq<CtxPorts>)

  datatype Wires = Wires(b: Name -> bool, n: Name -> nat, m: Name -> BitVec)

  function Ctx(p: Ports, c: nat): CtxPorts {
    if c < |p.ctx| then p.ctx[c] else CtxPorts([], 0, 0, [], false, false, false)
  }

  function RequestOf(p: Ports, c: nat): Request {
    Request(p.source, Ctx(p, c).enable, p.prio, Ctx(p, c).threshold, Ctx(p, c).claimed)
  }

  function EvalB(e: BExpr, p: Ports, w: Wires): bool {
    match e
    case Source(i) => Bit(p.source, i)
    case Enabled(c, i) => Bit(Ctx(p, c).enable, i)
    case Unclaimed(c, i) => !Bit(Ctx(p, c).claimed, i)
    case ReadPulse(c) => Ctx(p, c).readPulse
    case WritePulse(c) => Ctx(p, c).writePulse
    case WrPulseD(c) => Ctx(p, c).wrPulseD
    case BVar(x) => w.b(x)
    case AndB(a, b) => EvalB(a, p, w) && EvalB(b, p, w)
    case OrB(a, b) => EvalB(a, p, w) || EvalB(b, p, w)
    case IsZero(n) => EvalN(n, p, w) == 0
    case NotZero(n) => EvalN(n, p, w) != 0
    case Greater(l, r) => EvalN(l, p, w) > EvalN(r, p, w)
  }

  function EvalN(e: NExpr, p: Ports, w: Wires): nat {
    match e
    case NLit(v, width) => Cut(v, width)
    case Prio(i) => if i < |p.prio| then p.prio[i] else 0
    case Threshold(c) => Ctx(p, c).threshold
    case ClaimReg(c) => Ctx(p, c).claim
    case NVar(x) => w.n(x)
    case NIf(c, t, f) => if EvalB(c, p, w) then EvalN(t, p, w) else EvalN(f, p, w)
  }

  function SelectArm(v: nat, arms: seq<(nat, BitVec)>, default: BitVec): BitVec {
    if arms == [] then default
    else if arms[0].0 == v then arms[0].1
    else SelectArm(v, arms[1..], default)
  }

  function EvalM(e: MExpr, p: Ports, w: Wires): BitVec {
    match e
    case MLit(bits) => bits
    case Claimed(c) => Ctx(p, c).claimed
    case MVar(x) => w.m(x)
    case MIf(c, t, f) => if EvalB(c, p, w) then EvalM(t, p, w) else EvalM(f, p, w)
    case MMatch(s, arms, default) => SelectArm(EvalN(s, p, w), arms, default)
    case MOr(x, y) => Or(EvalM(x, p, w), EvalM(y, p, w))
    case MAndNot(x, y) => And(EvalM(x, p, w), Not(EvalM(y, p, w)))
  }

  ghost predicate Holds(l: Let, p: Ports, w: Wires) {
    match l
    case LetB(x, b) => w.b(x) == EvalB(b, p, w)
    case LetN(x, width, n) => w.n(x) == Cut(EvalN(n, p, w), width)
    case LetM(x, m) => w.m(x) == EvalM(m, p, w)
  }

  ghost predicate Settled(lets: seq<Let>, p: Ports, w: Wires) {
    forall l :: l in lets ==> Holds(l, p, w)
  }

  // ----- What is emitted, per line -----

  function CandLet(c: nat, i: nat): Let {
    LetB(Name(c, CandK, i),
         AndB(AndB(AndB(Source(i), Enabled(c, i)), Greater(Prio(i), Threshold(c))), Unclaimed(c, i)))
  }

  function CandLets(c: nat, i: nat): seq<Let> {
    if i == 0 then [] else CandLets(c, i - 1) + [CandLet(c, i)]
  }

  function FirstLets(n: nat, c: nat): seq<Let> {
    var ids := IdWidth(n);
    [ LetN(Name(c, WinIdK, 1), ids, NIf(BVar(Name(c, CandK, 1)), NLit(1, ids), NLit(0, ids))),
      LetN(Name(c, WinPrioK, 1), PRIO_WIDTH, NIf(BVar(Name(c, CandK, 1)), Prio(1), NLit(0, PRIO_WIDTH))) ]
  }

  function BetterThanBefore(c: nat, i: nat): BExpr
    requires i >= 1
  {
    OrB(IsZero(NVar(Name(c, WinIdK, i - 1))), Greater(Prio(i), NVar(Name(c, WinPrioK, i - 1))))
  }

  function StageLets(n: nat, c: nat, i: nat): seq<Let>
    requires i >= 2
  {
    var ids := IdWidth(n);
    [ LetB(Name(c, TakeK, i), AndB(BVar(Name(c, CandK, i)), BetterThanBefore(c, i))),
      LetN(Name(c, WinIdK, i), ids, NIf(BVar(Name(c, TakeK, i)), NLit(i, ids), NVar(Name(c, WinIdK, i - 1)))),
      LetN(Name(c, WinPrioK, i), PRIO_WIDTH, NIf(BVar(Name(c, TakeK, i)), Prio(i), NVar(Name(c, WinPrioK, i - 1)))) ]
  }

  function CascadeLets(n: nat, c: nat, i: nat): seq<Let> {
    if i < 2 then [] else CascadeLets(n, c, i - 1) + StageLets(n, c, i)
  }

  /** The literal `{bits}'h<1 << i>` on n + 1 bits. */
  function MaskLit(n: nat, i: nat): BitVec {
    FromNat(Pow2(i), n + 1)
  }

  /** The arms for IDs 1..i; the key literals are as wide as the ID port. */
  function Arms(n: nat, i: nat): seq<(nat, BitVec)> {
    if i == 0 then [] else Arms(n, i - 1) + [(Cut(i, IdWidth(n)), MaskLit(n, i))]
  }

  function MaskLets(n: nat, c: nat): seq<Let> {
    [ LetM(Name(c, SetBitK, 0), MMatch(ClaimReg(c), Arms(n, n), Zeros(n + 1))),
      LetM(Name(c, SetMaskK, 0), MIf(ReadPulse(c), MVar(Name(c, SetBitK, 0)), MLit(Zeros(n + 1)))),
      LetM(Name(c, ClrBitK, 0), MMatch(ClaimReg(c), Arms(n, n), Zeros(n + 1))),
      LetM(Name(c, ClrMaskK, 0), MIf(WrPulseD(c), MVar(Name(c, ClrBitK, 0)), MLit(Zeros(n + 1)))) ]
  }

  function ContextLets(n: nat, c: nat): seq<Let> {
    CandLets(c, n) + FirstLets(n, c) + CascadeLets(n, c, n) + MaskLets(n, c)
  }

  function AllLets(n: nat, ctxs: nat): seq<Let> {
    if ctxs == 0 then [] else AllLets(n, ctxs - 1) + ContextLets(n, ctxs - 1)
  }

  function ClaimedUpdate(c: nat): MExpr {
    MAndNot(MOr(Claimed(c), MVar(Name(c, SetMaskK, 0))), MVar(Name(c, ClrMaskK, 0)))
  }

  function Module(n: nat, ctxs: nat): LogicModule {
    LogicModule(
      AllLets(n, ctxs),
      seq(ctxs, c requires c >= 0 => WritePulse(c)),
      seq(ctxs, c requires c >= 0 => ClaimedUpdate(c)),
      seq(ctxs, c requires c >= 0 => NVar(Name(c, WinIdK, n))),
      seq(ctxs, k requires 0 <= k < ctxs => NotZero(NVar(Name(ctxs - 1 - k, WinIdK, n)))))
  }

  // ----- The generator -----

  datatype ClaimRegister = ClaimRegister(emitReadPulse: bool, emitWritePulse: bool)

  /** The scanned fixture, as far as the logic generator looks at it. */
  datatype PlicModel = PlicModel(
    hasPending: bool, enables: nat, thresholds: nat, claims: seq<ClaimRegister>, priorities: nat)

  datatype Error = MissingPending | MissingContextRegs | ContextCountMismatch | NoSources | MissingPulse(ctx: nat)

  datatype Result = Emitted(m: LogicModule) | Rejected(error: Error)

  predicate PulsesDeclared(r: ClaimRegister) {
    r.emitReadPulse && r.emitWritePulse
  }

  /** What a fixture must declare for a logic module to exist at all. */
  ghost predicate Accepts(m: PlicModel) {
    && m.hasPending
    && m.enables == m.thresholds == |m.claims| >= 1
    && m.priorities >= 2
    && forall c :: 0 <= c < |m.claims| ==> PulsesDeclared(m.claims[c])
  }

  ghost predicate ContextsMatch(m: PlicModel) {
    m.enables == m.thresholds == |m.claims|
  }

  /** The first broken rule of a fixture: pending, presence, counts, sources, then the pulses context by context. */
  ghost predicate Explains(m: PlicModel, e: Error) {
    match e
    case MissingPending => !m.hasPending
    case MissingContextRegs => m.hasPending && (m.enables == 0 || m.thresholds == 0 || m.claims == [])
    case ContextCountMismatch =>
      m.hasPending && m.enables > 0 && m.thresholds > 0 && m.claims != [] && !ContextsMatch(m)
    case NoSources => m.hasPending && ContextsMatch(m) && m.claims != [] && m.priorities < 2
    case MissingPulse(c) =>
      && m.hasPending && ContextsMatch(m) && m.priorities >= 2
      && c < |m.claims| && !PulsesDeclared(m.claims[c])
      && forall k :: 0 <= k < c ==> PulsesDeclared(m.claims[k])
  }

  method Validate(m: PlicModel) returns (error: Option<Error>)
    ensures error.None? <==> Accepts(m)
    ensures error.Some? ==> Explains(m, error.value)
  {
    if !m.hasPending { return Some(MissingPending); }
    if m.enables == 0 || m.thresholds == 0 || |m.claims| == 0 { return Some(MissingContextRegs); }
    if m.enables != m.thresholds || |m.claims| != m.thresholds { return Some(ContextCountMismatch); }
    if m.priorities < 2 { return Some(NoSources); }
    for c := 0 to |m.claims|
      invariant forall k :: 0 <= k < c ==> PulsesDeclared(m.claims[k])
    {
      if !PulsesDeclared(m.claims[c]) { return Some(MissingPulse(c)); }
    }
    return None;
  }

  method EmitContext(n: nat, c: nat) returns (lines: seq<Let>)
    requires n >= 1
    ensures lines == ContextLets(n, c)
  {
    lines := [];
    for i := 1 to n + 1
      invariant lines == CandLets(c, i - 1)
    {
      lines := lines + [CandLet(c, i)];
    }
    lines := lines + FirstLets(n, c);
    for i := 2 to n + 1
      invariant lines == CandLets(c, n) + FirstLets(n, c) + CascadeLets(n, c, i - 1)
    {
      lines := lines + StageLets(n, c, i);
    }
    var arms: seq<(nat, BitVec)> := [];
    for i := 1 to n + 1
      invariant arms == Arms(n, i - 1)
    {
      arms := arms + [(Cut(i, IdWidth(n)), MaskLit(n, i))];
    }
    lines := lines +
    [ LetM(Name(c, SetBitK, 0), MMatch(ClaimReg(c), arms, Zeros(n + 1))),
      LetM(Name(c, SetMaskK, 0), MIf(ReadPulse(c), MVar(Name(c, SetBitK, 0)), MLit(Zeros(n + 1)))),
      LetM(Name(c, ClrBitK, 0), MMatch(ClaimReg(c), arms, Zeros(n + 1))),
      LetM(Name(c, ClrMaskK, 0), MIf(WrPulseD(c), MVar(Name(c, ClrBitK, 0)), MLit(Zeros(n + 1)))) ];
  }

  /** The first pass over the contexts: the wires. */
  method EmitWires(n: nat, ctxs: nat) returns (lines: seq<Let>)
    requires n >= 1
    ensures lines == AllLets(n, ctxs)
  {
    lines := [];
    for c := 0 to ctxs
      invariant lines == AllLets(n, c)
    {
      var block := EmitContext(n, c);
      lines := lines + block;
    }
  }

  /** The second pass: the registers' next values. */
  method EmitRegisters(ctxs: nat) returns (pulses: seq<BExpr>, claimed: seq<MExpr>)
    ensures |pulses| == |claimed| == ctxs
    ensures forall c :: 0 <= c < ctxs ==> pulses[c] == WritePulse(c) && claimed[c] == ClaimedUpdate(c)
  {
    pulses, claimed := [], [];
    for c := 0 to ctxs
      invariant |pulses| == |claimed| == c
      invariant forall k :: 0 <= k < c ==> pulses[k] == WritePulse(k) && claimed[k] == ClaimedUpdate(k)
    {
      pulses, claimed := pulses + [WritePulse(c)], claimed + [ClaimedUpdate(c)];
    }
  }

  /** The third pass: the claim drives, and the interrupt bits with the last context first. */
  method EmitDrives(n: nat, ctxs: nat) returns (drives: seq<NExpr>, fired: seq<BExpr>)
    ensures |drives| == |fired| == ctxs
    ensures forall c :: 0 <= c < ctxs ==>
              && drives[c] == NVar(Name(c, WinIdK, n))
              && fired[c] == NotZero(NVar(Name(ctxs - 1 - c, WinIdK, n)))
  {
    drives, fired := [], [];
    for c := 0 to ctxs
      invariant |drives| == |fired| == c
      invariant forall k :: 0 <= k < c ==> drives[k] == NVar(Name(k, WinIdK, n))
      invariant forall k :: 0 <= k < c ==> fired[k] == NotZero(NVar(Name(ctxs - 1 - k, WinIdK, n)))
    {
      drives, fired := drives + [NVar(Name(c, WinIdK, n))], fired + [NotZero(NVar(Name(ctxs - 1 - c, WinIdK, n)))];
    }
  }

  /** One pass over the contexts for the wires, one for the registers, one for the ports. */
  method EmitPlicLogic(m: PlicModel) returns (r: Result)
    ensures r.Emitted? <==> Accepts(m)
    ensures r.Emitted? ==> r.m == Module(m.priorities - 1, m.thresholds)
    ensures r.Rejected? ==> Explains(m, r.error)
  {
    var error := Validate(m);
    if error.Some? { return Rejected(error.value); }
    var n, ctxs := m.priorities - 1, m.thresholds;
    var lines := EmitWires(n, ctxs);
    var pulses, claimed := EmitRegisters(ctxs);
    var drives, fired := EmitDrives(n, ctxs);
    r := Emitted(LogicModule(lines, pulses, claimed, drives, fired));
  }

  // ----- Every emitted line is there -----

  lemma {:induction false} CandEmitted(c: nat, i: nat, k: nat)
    requires 1 <= k <= i
    ensures CandLet(c, k) in CandLets(c, i)
  {
    if k < i { CandEmitted(c, i - 1, k); }
  }

  lemma {:induction false} StageEmitted(n: nat, c: nat, i: nat, k: nat, l: Let)
    requires 2 <= k <= i && l in StageLets(n, c, k)
    ensures l in CascadeLets(n, c, i)
  {
    if k < i { StageEmitted(n, c, i - 1, k, l); }
  }

  lemma {:induction false} ContextEmitted(n: nat, ctxs: nat, c: nat, l: Let)
    requires c < ctxs && l in ContextLets(n, c)
    ensures l in AllLets(n, ctxs)
  {
    if c < ctxs - 1 { ContextEmitted(n, ctxs - 1, c, l); }
  }

  // ----- Meaning of the emitted module -----

  ghost predicate PortsShaped(n: nat, ctxs: nat, p: Ports) {
    && n >= 1 && |p.ctx| == ctxs
    && forall c :: 0 <= c < ctxs ==> Shaped(n, RequestOf(p, c))
  }

  lemma CandMeaning(c: nat, i: nat, p: Ports, w: Wires)
    requires |p.prio| > i
    ensures EvalB(CandLet(c, i).b, p, w)
         == (&& Bit(p.source, i) && Bit(Ctx(p, c).enable, i) && p.prio[i] > Ctx(p, c).threshold
             && !Bit(Ctx(p, c).claimed, i))
  {
    var inner := AndB(Source(i), Enabled(c, i));
    var above := Greater(Prio(i), Threshold(c));
    assert EvalB(inner, p, w) == (Bit(p.source, i) && Bit(Ctx(p, c).enable, i));
    assert EvalB(above, p, w) == (p.prio[i] > Ctx(p, c).threshold);
    assert EvalB(AndB(inner, above), p, w) == (EvalB(inner, p, w) && EvalB(above, p, w));
  }

  lemma TakeMeaning(n: nat, c: nat, i: nat, p: Ports, w: Wires)
    requires 2 <= i < |p.prio|
    ensures Holds(StageLets(n, c, i)[0], p, w) <==>
            (w.b(Name(c, TakeK, i)) == (w.b(Name(c, CandK, i)) &&
              (w.n(Name(c, WinIdK, i - 1)) == 0 || p.prio[i] > w.n(Name(c, WinPrioK, i - 1)))))
  {
    var zero := IsZero(NVar(Name(c, WinIdK, i - 1)));
    var above := Greater(Prio(i), NVar(Name(c, WinPrioK, i - 1)));
    assert EvalN(NVar(Name(c, WinIdK, i - 1)), p, w) == w.n(Name(c, WinIdK, i - 1));
    assert EvalN(NVar(Name(c, WinPrioK, i - 1)), p, w) == w.n(Name(c, WinPrioK, i - 1));
    assert EvalN(Prio(i), p, w) == p.prio[i];
    assert EvalB(zero, p, w) == (w.n(Name(c, WinIdK, i - 1)) == 0);
    assert EvalB(above, p, w) == (p.prio[i] > w.n(Name(c, WinPrioK, i - 1)));
    assert EvalB(BetterThanBefore(c, i), p, w) == (EvalB(zero, p, w) || EvalB(above, p, w));
    assert EvalB(BVar(Name(c, CandK, i)), p, w) == w.b(Name(c, CandK, i));
  }

  /** Both running values are cut to their wires' widths. */
  lemma StageMeaning(n: nat, c: nat, i: nat, p: Ports, w: Wires)
    requires 2 <= i < |p.prio|
    ensures Holds(StageLets(n, c, i)[1], p, w) <==>
            w.n(Name(c, WinIdK, i))
            == Cut(if w.b(Name(c, TakeK, i)) then Cut(i, IdWidth(n)) else w.n(Name(c, WinIdK, i - 1)), IdWidth(n))
    ensures Holds(StageLets(n, c, i)[2], p, w) <==>
            w.n(Name(c, WinPrioK, i))
            == Cut(if w.b(Name(c, TakeK, i)) then p.prio[i] else w.n(Name(c, WinPrioK, i - 1)), PRIO_WIDTH)
  {
    assert EvalN(NVar(Name(c, WinIdK, i - 1)), p, w) == w.n(Name(c, WinIdK, i - 1));
    assert EvalN(NVar(Name(c, WinPrioK, i - 1)), p, w) == w.n(Name(c, WinPrioK, i - 1));
    assert EvalN(Prio(i), p, w) == p.prio[i] && EvalN(NLit(i, IdWidth(n)), p, w) == Cut(i, IdWidth(n));
    assert EvalB(BVar(Name(c, TakeK, i)), p, w) == w.b(Name(c, TakeK, i));
  }

  lemma FirstMeaning(n: nat, c: nat, p: Ports, w: Wires)
    requires |p.prio| > 1
    ensures Holds(FirstLets(n, c)[0], p, w) <==>
            w.n(Name(c, WinIdK, 1))
            == Cut(if w.b(Name(c, CandK, 1)) then Cut(1, IdWidth(n)) else Cut(0, IdWidth(n)), IdWidth(n))
    ensures Holds(FirstLets(n, c)[1], p, w) <==>
            w.n(Name(c, WinPrioK, 1))
            == Cut(if w.b(Name(c, CandK, 1)) then p.prio[1] else Cut(0, PRIO_WIDTH), PRIO_WIDTH)
  {
    assert EvalN(NLit(1, IdWidth(n)), p, w) == Cut(1, IdWidth(n));
    assert EvalN(NLit(0, IdWidth(n)), p, w) == Cut(0, IdWidth(n));
    assert EvalN(NLit(0, PRIO_WIDTH), p, w) == Cut(0, PRIO_WIDTH) && EvalN(Prio(1), p, w) == p.prio[1];
    assert EvalB(BVar(Name(c, CandK, 1)), p, w) == w.b(Name(c, CandK, 1));
  }

  lemma TableMeaning(n: nat, c: nat, p: Ports, w: Wires)
    ensures EvalM(MMatch(ClaimReg(c), Arms(n, n), Zeros(n + 1)), p, w) == IdMask(n, Ctx(p, c).claim)
  {
    TableIsMask(n, n, Ctx(p, c).claim);
    assert EvalN(ClaimReg(c), p, w) == Ctx(p, c).claim;
    assert Ctx(p, c).claim > n ==> IdMask(n, Ctx(p, c).claim) == Zeros(n + 1);
  }

  lemma MaskMeaning(n: nat, c: nat, p: Ports, w: Wires)
    ensures Holds(MaskLets(n, c)[0], p, w) <==> w.m(Name(c, SetBitK, 0)) == IdMask(n, Ctx(p, c).claim)
    ensures Holds(MaskLets(n, c)[1], p, w) <==>
            w.m(Name(c, SetMaskK, 0)) == if Ctx(p, c).readPulse then w.m(Name(c, SetBitK, 0)) else Zeros(n + 1)
    ensures Holds(MaskLets(n, c)[2], p, w) <==> w.m(Name(c, ClrBitK, 0)) == IdMask(n, Ctx(p, c).claim)
    ensures Holds(MaskLets(n, c)[3], p, w) <==>
            w.m(Name(c, ClrMaskK, 0)) == if Ctx(p, c).wrPulseD then w.m(Name(c, ClrBitK, 0)) else Zeros(n + 1)
  {
    TableMeaning(n, c, p, w);
    assert EvalM(MVar(Name(c, SetBitK, 0)), p, w) == w.m(Name(c, SetBitK, 0));
    assert EvalM(MVar(Name(c, ClrBitK, 0)), p, w) == w.m(Name(c, ClrBitK, 0));
    assert EvalM(MLit(Zeros(n + 1)), p, w) == Zeros(n + 1);
  }

  lemma UpdateMeaning(c: nat, p: Ports, w: Wires)
    ensures EvalM(ClaimedUpdate(c), p, w)
         == And(Or(Ctx(p, c).claimed, w.m(Name(c, SetMaskK, 0))), Not(w.m(Name(c, ClrMaskK, 0))))
  {
    var set_ := MOr(Claimed(c), MVar(Name(c, SetMaskK, 0)));
    assert EvalM(MVar(Name(c, SetMaskK, 0)), p, w) == w.m(Name(c, SetMaskK, 0));
    assert EvalM(MVar(Name(c, ClrMaskK, 0)), p, w) == w.m(Name(c, ClrMaskK, 0));
    assert EvalM(set_, p, w) == Or(Ctx(p, c).claimed, w.m(Name(c, SetMaskK, 0)));
  }

  lemma ContextSettled(n: nat, ctxs: nat, p: Ports, w: Wires, c: nat)
    requires Settled(AllLets(n, ctxs), p, w) && c < ctxs
    ensures Settled(ContextLets(n, c), p, w)
  {
    forall l | l in ContextLets(n, c) ensures Holds(l, p, w) {
      ContextEmitted(n, ctxs, c, l);
    }
  }

  lemma CandValue(n: nat, ctxs: nat, p: Ports, w: Wires, c: nat, i: nat)
    requires PortsShaped(n, ctxs, p) && Settled(ContextLets(n, c), p, w) && c < ctxs && 1 <= i <= n
    ensures w.b(Name(c, CandK, i)) == Cand(RequestOf(p, c), i)
  {
    CandEmitted(c, n, i);
    assert CandLet(c, i) in ContextLets(n, c);
    assert Shaped(n, RequestOf(p, c));
    CandMeaning(c, i, p, w);
    assert Holds(CandLet(c, i), p, w);
  }

  lemma StageValue(n: nat, p: Ports, w: Wires, c: nat, i: nat)
    requires Settled(ContextLets(n, c), p, w) && 2 <= i <= n
    ensures forall l :: l in StageLets(n, c, i) ==> Holds(l, p, w)
  {
    forall l | l in StageLets(n, c, i) ensures Holds(l, p, w) {
      StageEmitted(n, c, n, i, l);
      assert l in ContextLets(n, c);
    }
  }

  /** What is on the running wires after stage `i`: the ID as it is, the priority on its three bits. */
  ghost predicate Carries(n: nat, p: Ports, w: Wires, c: nat, i: nat) {
    (w.n(Name(c, WinIdK, i)), w.n(Name(c, WinPrioK, i))) == Running(RequestOf(p, c), i)
  }

  lemma RunningBounds(n: nat, q: Request, i: nat)
    requires i <= n
    ensures Cut(Running(q, i).0, IdWidth(n)) == Running(q, i).0
    ensures Cut(Running(q, i).1, PRIO_WIDTH) == Running(q, i).1
    decreases i
  {
    RunningIsCandidate(q, i);
    IdKept(n, Running(q, i).0);
    EightLevels(Running(q, i).1);
    if i > 0 {
      RunningBounds(n, q, i - 1);
      EightLevels(if i < |q.prio| then q.prio[i] else 0);
    }
  }

  /** One stage's equations carry the running values on; the IDs fit their wires. */
  lemma StageCarries(n: nat, ctxs: nat, p: Ports, w: Wires, c: nat, i: nat)
    requires PortsShaped(n, ctxs, p) && c < ctxs && 2 <= i <= n && Carries(n, p, w, c, i - 1)
    requires w.b(Name(c, CandK, i)) == Cand(RequestOf(p, c), i)
    requires forall l :: l in StageLets(n, c, i) ==> Holds(l, p, w)
    ensures Carries(n, p, w, c, i)
  {
    assert Shaped(n, RequestOf(p, c));
    TakeMeaning(n, c, i, p, w);
    StageMeaning(n, c, i, p, w);
    IdKept(n, i);
    RunningBounds(n, RequestOf(p, c), i - 1);
    var ls := StageLets(n, c, i);
    assert ls[0] in ls && ls[1] in ls && ls[2] in ls;
  }

  lemma FirstCarries(n: nat, ctxs: nat, p: Ports, w: Wires, c: nat)
    requires PortsShaped(n, ctxs, p) && c < ctxs
    requires w.b(Name(c, CandK, 1)) == Cand(RequestOf(p, c), 1)
    requires forall l :: l in FirstLets(n, c) ==> Holds(l, p, w)
    ensures Carries(n, p, w, c, 1)
  {
    assert Shaped(n, RequestOf(p, c));
    FirstMeaning(n, c, p, w);
    IdKept(n, 1);
    IdKept(n, 0);
    EightLevels(0);
    assert Running(RequestOf(p, c), 0) == (0, 0);
    var ls := FirstLets(n, c);
    assert ls[0] in ls && ls[1] in ls;
  }

  /** By the i-th stage the wires carry the running values of the cascade. */
  lemma {:induction false} CascadeValue(n: nat, ctxs: nat, p: Ports, w: Wires, c: nat, i: nat)
    requires PortsShaped(n, ctxs, p) && Settled(ContextLets(n, c), p, w) && c < ctxs && 1 <= i <= n
    ensures Carries(n, p, w, c, i)
  {
    CandValue(n, ctxs, p, w, c, i);
    if i == 1 {
      assert forall l :: l in FirstLets(n, c) ==> l in ContextLets(n, c);
      FirstCarries(n, ctxs, p, w, c);
    } else {
      CascadeValue(n, ctxs, p, w, c, i - 1);
      StageValue(n, p, w, c, i);
      StageCarries(n, ctxs, p, w, c, i);
    }
  }

  lemma {:induction false} Pow2Bit(i: nat, w: nat, j: nat)
    requires i < w && j < w
    ensures FromNat(Pow2(i), w)[j] == (i == j)
  {
    if i == 0 {
      ZeroBits(w - 1);
      assert FromNat(1, w) == [true] + FromNat(0, w - 1);
    } else if j > 0 {
      Pow2Bit(i - 1, w - 1, j - 1);
    }
  }

  lemma {:induction false} ZeroBits(w: nat)
    ensures FromNat(0, w) == Zeros(w)
  {
    if w > 0 { ZeroBits(w - 1); }
  }

  lemma {:induction false} SelectAppend(v: nat, arms: seq<(nat, BitVec)>, last: (nat, BitVec), default: BitVec)
    ensures SelectArm(v, arms + [last], default)
         == if exists a :: a in arms && a.0 == v then SelectArm(v, arms, default)
            else if v == last.0 then last.1 else default
  {
    if arms == [] {
      assert ([last])[1..] == [];
    } else {
      assert (arms + [last])[1..] == arms[1..] + [last];
      SelectAppend(v, arms[1..], last, default);
      if arms[0].0 != v && exists a :: a in arms && a.0 == v {
        var a :| a in arms && a.0 == v;
        assert a in arms[1..];
      }
    }
  }

  lemma {:induction false} ArmKeys(n: nat, i: nat, v: nat)
    requires i <= n
    ensures (exists a :: a in Arms(n, i) && a.0 == v) <==> 1 <= v <= i
  {
    if i > 0 {
      ArmKeys(n, i - 1, v);
      IdKept(n, i);
      assert (i, MaskLit(n, i)) in Arms(n, i);
      if 1 <= v < i {
        var a :| a in Arms(n, i - 1) && a.0 == v;
        assert a in Arms(n, i);
      }
    }
  }

  /** The unrolled match table is the one-hot mask of the ID, empty for 0 and for IDs above n. */
  lemma {:induction false} TableIsMask(n: nat, i: nat, v: nat)
    requires i <= n
    ensures SelectArm(v, Arms(n, i), Zeros(n + 1)) == if v <= i then IdMask(n, v) else Zeros(n + 1)
  {
    if i == 0 {
      assert v == 0 ==> IdMask(n, v) == Zeros(n + 1);
    } else {
      TableIsMask(n, i - 1, v);
      ArmKeys(n, i - 1, v);
      IdKept(n, i);
      SelectAppend(v, Arms(n, i - 1), (i, MaskLit(n, i)), Zeros(n + 1));
      forall j: nat | j <= n ensures MaskLit(n, i)[j] == IdMask(n, i)[j] {
        Pow2Bit(i, n + 1, j);
      }
      assert v == 0 ==> IdMask(n, v) == Zeros(n + 1);
    }
  }

  lemma MaskValue(n: nat, p: Ports, w: Wires, c: nat)
    requires Settled(ContextLets(n, c), p, w)
    ensures w.m(Name(c, SetMaskK, 0)) == if Ctx(p, c).readPulse then IdMask(n, Ctx(p, c).claim) else Zeros(n + 1)
    ensures w.m(Name(c, ClrMaskK, 0)) == if Ctx(p, c).wrPulseD then IdMask(n, Ctx(p, c).claim) else Zeros(n + 1)
  {
    forall l | l in MaskLets(n, c) ensures Holds(l, p, w) {
      assert l in ContextLets(n, c);
    }
    var ls := MaskLets(n, c);
    assert ls[0] in ls && ls[1] in ls && ls[2] in ls && ls[3] in ls;
    MaskMeaning(n, c, p, w);
  }

  /** Bit `c` of the packed interrupt output. */
  ghost predicate IntrBit(m: LogicModule, p: Ports, w: Wires, c: nat)
    requires c < |m.intrConcat|
  {
    EvalB(m.intrConcat[|m.intrConcat| - 1 - c], p, w)
  }

  lemma DriveValue(n: nat, ctxs: nat, p: Ports, w: Wires, c: nat)
    requires PortsShaped(n, ctxs, p) && c < ctxs && Settled(Module(n, ctxs).lets, p, w)
    ensures EvalN(Module(n, ctxs).claimDrive[c], p, w) == Winner(n, RequestOf(p, c))
    ensures IntrBit(Module(n, ctxs), p, w, c) <==> Winner(n, RequestOf(p, c)) != 0
  {
    var id := NVar(Name(c, WinIdK, n));
    ContextSettled(n, ctxs, p, w, c);
    CascadeValue(n, ctxs, p, w, c, n);
    assert Module(n, ctxs).intrConcat[ctxs - 1 - c] == NotZero(id);
    assert EvalB(NotZero(id), p, w) == (EvalN(id, p, w) != 0);
  }

  /**
   * The generated module, for any number of sources and contexts and any priorities: once its wires settle,
   * each context drives the ID of its cascade, raises its own interrupt bit exactly when it has a candidate, and
   * latches the next in-service bitmap; where the priorities fit the running wire, the ID is the one that the
   * arbitration rule demands. No context reads another's registers.
   */
  lemma EmittedModuleCorrect(n: nat, ctxs: nat, p: Ports, w: Wires, c: nat)
    requires PortsShaped(n, ctxs, p) && c < ctxs
    requires Settled(Module(n, ctxs).lets, p, w)
    ensures EvalN(Module(n, ctxs).claimDrive[c], p, w) == Winner(n, RequestOf(p, c))
    ensures |p.prio| == n + 1
    ensures RunningFits(n, p.prio) ==> IsWinner(n, RequestOf(p, c), EvalN(Module(n, ctxs).claimDrive[c], p, w))
    ensures IntrBit(Module(n, ctxs), p, w, c) <==> exists i :: 1 <= i <= n && Cand(RequestOf(p, c), i)
    ensures EvalM(Module(n, ctxs).claimedNext[c], p, w)
         == ClaimedNext(n, p.ctx[c].claimed, p.ctx[c].claim, p.ctx[c].readPulse, p.ctx[c].wrPulseD)
    ensures EvalB(Module(n, ctxs).wrPulseNext[c], p, w) == p.ctx[c].writePulse
  {
    ContextSettled(n, ctxs, p, w, c);
    var q := RequestOf(p, c);
    assert Shaped(n, q);
    DriveValue(n, ctxs, p, w, c);
    RunningIsCandidate(q, n);
    CascadeExact(n, p.prio);
    MaskValue(n, p, w, c);
    UpdateMeaning(c, p, w);
  }

  /** The settled module drives the rule's winner in context `c`. */
  ghost predicate ArbitratesAt(n: nat, ctxs: nat, p: Ports, w: Wires, c: nat) {
    && c < |Module(n, ctxs).claimDrive| && |p.prio| == n + 1
    && IsWinner(n, RequestOf(p, c), EvalN(Module(n, ctxs).claimDrive[c], p, w))
  }

  ghost predicate Arbitrates(n: nat, ctxs: nat, p: Ports, w: Wires) {
    forall c: nat :: c < ctxs ==> ArbitratesAt(n, ctxs, p, w, c)
  }

  /** The same request in every context. */
  function Everywhere(ctxs: nat, q: Request): Ports {
    Ports(q.source, q.prio, seq(ctxs, c => CtxPorts(q.enable, q.threshold, 0, q.claimed, false, false, false)))
  }

  lemma ArbitratesAll(n: nat, ctxs: nat, prio: seq<nat>, p: Ports, w: Wires)
    requires n >= 1 && RunningFits(n, prio)
    requires PortsShaped(n, ctxs, p) && p.prio == prio && Settled(Module(n, ctxs).lets, p, w)
    ensures Arbitrates(n, ctxs, p, w)
  {
    forall c: nat | c < ctxs ensures ArbitratesAt(n, ctxs, p, w, c) {
      EmittedModuleCorrect(n, ctxs, p, w, c);
    }
  }

  /**
   * The emitted module arbitrates correctly for given priorities, whatever is pending, enabled, above threshold or
   * in service, if and only if cutting a priority to three bits never lets a later source overtake it. The
   * generator does not check this; three-bit priority fields always meet it.
   */
  lemma EmittedArbiterExact(n: nat, ctxs: nat, prio: seq<nat>)
    requires n >= 1 && ctxs >= 1 && |prio| == n + 1
    ensures (forall p, w :: PortsShaped(n, ctxs, p) && p.prio == prio && Settled(Module(n, ctxs).lets, p, w) ==>
                              Arbitrates(n, ctxs, p, w))
            <==> RunningFits(n, prio)
  {
    if RunningFits(n, prio) {
      forall p, w | PortsShaped(n, ctxs, p) && p.prio == prio && Settled(Module(n, ctxs).lets, p, w)
        ensures Arbitrates(n, ctxs, p, w)
      {
        ArbitratesAll(n, ctxs, prio, p, w);
      }
    } else {
      CascadeExact(n, prio);
      var q :| Shaped(n, q) && q.prio == prio && !IsWinner(n, q, Winner(n, q));
      var p := Everywhere(ctxs, q);
      assert RequestOf(p, 0) == q;
      assert PortsShaped(n, ctxs, p);
      EmittedModuleSettles(n, ctxs, p);
      EmittedModuleCorrect(n, ctxs, p, Solution(n, p), 0);
      assert !ArbitratesAt(n, ctxs, p, Solution(n, p), 0);
    }
  }

  function SolvedRunning(p: Ports, c: nat, i: nat): (nat, nat) {
    Running(RequestOf(p, c), i)
  }

  predicate SolvedTake(p: Ports, c: nat, i: nat) {
    && Cand(RequestOf(p, c), i)
    && i >= 1 && (SolvedRunning(p, c, i - 1).0 == 0 || RequestOf(p, c).prio[i] > SolvedRunning(p, c, i - 1).1)
  }

  function SolvedMask(n: nat, p: Ports, c: nat, kind: Kind): BitVec {
    var on := if kind == SetMaskK then Ctx(p, c).readPulse else if kind == ClrMaskK then Ctx(p, c).wrPulseD else true;
    if on then IdMask(n, Ctx(p, c).claim) else Zeros(n + 1)
  }

  /** The value each wire settles to. */
  function Solution(n: nat, p: Ports): Wires {
    Wires(
      (x: Name) => if x.kind == CandK then Cand(RequestOf(p, x.ctx), x.i) else SolvedTake(p, x.ctx, x.i),
      (x: Name) => if x.kind == WinIdK then SolvedRunning(p, x.ctx, x.i).0 else SolvedRunning(p, x.ctx, x.i).1,
      (x: Name) => SolvedMask(n, p, x.ctx, x.kind))
  }

  lemma {:induction false} CandsSettle(n: nat, ctxs: nat, p: Ports, c: nat, i: nat)
    requires PortsShaped(n, ctxs, p) && c < ctxs && i <= n
    ensures Settled(CandLets(c, i), p, Solution(n, p))
  {
    assert Shaped(n, RequestOf(p, c));
    if i > 0 {
      CandsSettle(n, ctxs, p, c, i - 1);
      CandMeaning(c, i, p, Solution(n, p));
      assert Holds(CandLet(c, i), p, Solution(n, p));
    }
  }

  /** One stage of the cascade, told by its take condition. */
  lemma RunningStage(p: Ports, c: nat, i: nat)
    requires i >= 1
    ensures SolvedRunning(p, c, i)
         == if SolvedTake(p, c, i) then (i, Cut(RequestOf(p, c).prio[i], PRIO_WIDTH)) else SolvedRunning(p, c, i - 1)
  {
  }

  lemma TakeSettles(n: nat, p: Ports, c: nat, i: nat)
    requires 2 <= i < |p.prio|
    ensures Holds(StageLets(n, c, i)[0], p, Solution(n, p))
  {
    TakeMeaning(n, c, i, p, Solution(n, p));
  }

  lemma StageSettles(n: nat, p: Ports, c: nat, i: nat)
    requires |p.prio| == n + 1 && 2 <= i <= n
    ensures Settled(StageLets(n, c, i), p, Solution(n, p))
  {
    TakeSettles(n, p, c, i);
    StageMeaning(n, c, i, p, Solution(n, p));
    RunningStage(p, c, i);
    IdKept(n, i);
    RunningBounds(n, RequestOf(p, c), i - 1);
  }

  lemma FirstSettles(n: nat, ctxs: nat, p: Ports, c: nat)
    requires PortsShaped(n, ctxs, p) && c < ctxs
    ensures Settled(FirstLets(n, c), p, Solution(n, p))
  {
    assert Shaped(n, RequestOf(p, c));
    FirstMeaning(n, c, p, Solution(n, p));
    IdKept(n, 1);
    IdKept(n, 0);
    EightLevels(0);
    assert Running(RequestOf(p, c), 0) == (0, 0);
  }

  lemma {:induction false} CascadeSettles(n: nat, ctxs: nat, p: Ports, c: nat, i: nat)
    requires PortsShaped(n, ctxs, p) && c < ctxs && i <= n
    ensures Settled(CascadeLets(n, c, i), p, Solution(n, p))
  {
    if i >= 2 {
      CascadeSettles(n, ctxs, p, c, i - 1);
      assert Shaped(n, RequestOf(p, c));
      StageSettles(n, p, c, i);
      SettledAppend(CascadeLets(n, c, i - 1), StageLets(n, c, i), p, Solution(n, p));
    }
  }

  lemma {:induction false} ContextSettles(n: nat, ctxs: nat, p: Ports, c: nat)
    requires PortsShaped(n, ctxs, p) && c < ctxs
    ensures Settled(ContextLets(n, c), p, Solution(n, p))
  {
    var w := Solution(n, p);
    CandsSettle(n, ctxs, p, c, n);
    CascadeSettles(n, ctxs, p, c, n);
    FirstSettles(n, ctxs, p, c);
    MaskMeaning(n, c, p, w);
    assert Settled(MaskLets(n, c), p, w);
  }

  lemma SettledAppend(a: seq<Let>, b: seq<Let>, p: Ports, w: Wires)
    requires Settled(a, p, w) && Settled(b, p, w)
    ensures Settled(a + b, p, w)
  {
    forall l | l in a + b ensures Holds(l, p, w) {}
  }

  lemma {:induction false} AllSettled(n: nat, k: nat, p: Ports, w: Wires)
    requires forall c: nat :: c < k ==> Settled(ContextLets(n, c), p, w)
    ensures Settled(AllLets(n, k), p, w)
  {
    if k > 0 {
      AllSettled(n, k - 1, p, w);
      SettledAppend(AllLets(n, k - 1), ContextLets(n, k - 1), p, w);
    }
  }

  /** The emitted wires always settle, so the meaning above is never vacuous. */
  lemma EmittedModuleSettles(n: nat, ctxs: nat, p: Ports)
    requires PortsShaped(n, ctxs, p)
    ensures Settled(Module(n, ctxs).lets, p, Solution(n, p))
  {
    forall c: nat | c < ctxs ensures Settled(ContextLets(n, c), p, Solution(n, p)) {
      ContextSettles(n, ctxs, p, c);
    }
    AllSettled(n, ctxs, p, Solution(n, p));
  }
}
