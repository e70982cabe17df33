/** Well-nested traps: what a properly bracketed stretch of a run does to the trap state. */
module TrapNesting {
  import opened Bits
  import opened IbexFixture
  import opened HybridMachine
  import opened HybridInvariants
  import opened TrapMachine

  // ----- Bracketed stretches -----

  /**
   * The shape of a stretch of a run. `Touch` is any cycle without trap or return, whatever it writes.
   * `Episode` is a trap, a handler and the return. `Guarded` reads mstatus and mepc, lets anything nest, and
   * then writes both values back; each pair may come in either order, with quiet cycles in between.
   */
  datatype Shape =
    | Quiet
    | Touch
    | Episode(handler: seq<Shape>)
    | Guarded(pcReadFirst: bool, readGap: nat, inner: seq<Shape>, pcBackFirst: bool, backGap: nat)

  function Length(s: Shape): nat
    decreases s
  {
    match s
    case Quiet => 1
    case Touch => 1
    case Episode(h) => 2 + Lengths(h)
    case Guarded(_, g, inner, _, b) => 4 + g + Lengths(inner) + b
  }

  function Lengths(ss: seq<Shape>): nat
    decreases ss
  {
    if ss == [] then 0 else Length(ss[0]) + Lengths(ss[1..])
  }

  predicate QuietFrom(run: CoreRun, t: nat, k: nat) {
    forall u: nat :: t <= u < t + k ==> IsQuiet(run(u))
  }

  function First(pc: bool): nat { if pc then 0x341 else 0x300 }

  function Second(pc: bool): nat { First(!pc) }

  /** Reads both registers from `t`, quiet in between. */
  predicate ReadsBoth(run: CoreRun, t: nat, pcFirst: bool, gap: nat) {
    IsRead(run(t), First(pcFirst)) && QuietFrom(run, t + 1, gap) && IsRead(run(t + 1 + gap), Second(pcFirst))
  }

  /** The value returned by the read of `addr` in a stretch that starts at `t` with both reads. */
  function ReadIn(seen: Seen, t: nat, pcFirst: bool, gap: nat, addr: nat): BitVec {
    var at := if addr == First(pcFirst) then t else t + 1 + gap;
    seen(at)
  }

  /** Writes back, from `u`, the two values read at `t`. */
  predicate WritesBoth(run: CoreRun, seen: Seen, t: nat, s: Shape, u: nat)
    requires s.Guarded?
  {
    var a, b := First(s.pcBackFirst), Second(s.pcBackFirst);
    && IsWriteBack(run(u), a, ReadIn(seen, t, s.pcReadFirst, s.readGap, a))
    && QuietFrom(run, u + 1, s.backGap)
    && IsWriteBack(run(u + 1 + s.backGap), b, ReadIn(seen, t, s.pcReadFirst, s.readGap, b))
  }

  /** The run follows a shape from `t`; directly inside a handler only quiet and guarded stretches are allowed. */
  predicate Follows(run: CoreRun, seen: Seen, s: Shape, t: nat, inHandler: bool)
    decreases s
  {
    match s
    case Quiet => IsQuiet(run(t))
    case Touch => !inHandler && NoTransfer(run(t))
    case Episode(h) =>
      !inHandler && IsEntry(run(t)) && FollowsAll(run, seen, h, t + 1, true) && IsExit(run(t + 1 + Lengths(h)))
    case Guarded(pcReadFirst, readGap, inner, _, _) =>
      && ReadsBoth(run, t, pcReadFirst, readGap)
      && FollowsAll(run, seen, inner, t + 2 + readGap, false)
      && WritesBoth(run, seen, t, s, t + 2 + readGap + Lengths(inner))
  }

  predicate FollowsAll(run: CoreRun, seen: Seen, ss: seq<Shape>, t: nat, inHandler: bool)
    decreases ss
  {
    ss == []
    || (Follows(run, seen, ss[0], t, inHandler) && FollowsAll(run, seen, ss[1..], t + Length(ss[0]), inHandler))
  }

  lemma {:induction false} QuietStretch(run: CoreRun, vs: TrapRun, seen: Seen, t: nat, k: nat)
    requires IsTrapRun(run, vs, seen) && QuietFrom(run, t, k)
    ensures vs(t + k) == vs(t)
  {
    if k > 0 {
      QuietStretch(run, vs, seen, t, k - 1);
      assert TrapEdgeAt(run, vs, seen, t + k - 1);
    }
  }

  lemma ReadStretch(run: CoreRun, vs: TrapRun, seen: Seen, t: nat, pcFirst: bool, gap: nat)
    requires IsTrapRun(run, vs, seen) && ReadsBoth(run, t, pcFirst, gap)
    ensures vs(t + 2 + gap) == vs(t)
    ensures Encodes(ReadIn(seen, t, pcFirst, gap, 0x300), 0x300, vs(t))
    ensures Encodes(ReadIn(seen, t, pcFirst, gap, 0x341), 0x341, vs(t))
  {
    assert TrapEdgeAt(run, vs, seen, t);
    QuietStretch(run, vs, seen, t + 1, gap);
    assert TrapEdgeAt(run, vs, seen, t + 1 + gap);
  }

  /** After both write-backs the view is the one the values were read in, if the privilege still is. */
  lemma WriteStretch(run: CoreRun, vs: TrapRun, seen: Seen, t: nat, s: Shape, u: nat, w: TrapState)
    requires IsTrapRun(run, vs, seen) && s.Guarded? && WritesBoth(run, seen, t, s, u)
    requires Encodes(ReadIn(seen, t, s.pcReadFirst, s.readGap, 0x300), 0x300, w)
    requires Encodes(ReadIn(seen, t, s.pcReadFirst, s.readGap, 0x341), 0x341, w)
    requires vs(u).priv == w.priv
    ensures vs(u + 2 + s.backGap) == w
  {
    var a, b := First(s.pcBackFirst), Second(s.pcBackFirst);
    assert TrapEdgeAt(run, vs, seen, u);
    QuietStretch(run, vs, seen, u + 1, s.backGap);
    assert TrapEdgeAt(run, vs, seen, u + 1 + s.backGap);
  }

  /** A guarded stretch keeps the whole state if what runs inside it keeps the privilege. */
  lemma GuardKeeps(run: CoreRun, vs: TrapRun, seen: Seen, s: Shape, t: nat)
    requires IsTrapRun(run, vs, seen) && s.Guarded? && ReadsBoth(run, t, s.pcReadFirst, s.readGap)
    requires WritesBoth(run, seen, t, s, t + 2 + s.readGap + Lengths(s.inner))
    requires vs(t + 2 + s.readGap + Lengths(s.inner)).priv == vs(t + 2 + s.readGap).priv
    ensures vs(t + Length(s)) == vs(t)
  {
    ReadStretch(run, vs, seen, t, s.pcReadFirst, s.readGap);
    WriteStretch(run, vs, seen, t, s, t + 2 + s.readGap + Lengths(s.inner), vs(t));
  }

  // ----- The main result -----

  /** Any bracketed stretch returns to the privilege it began in; one allowed in a handler keeps the whole view. */
  lemma {:induction false} StretchKeeps(run: CoreRun, vs: TrapRun, seen: Seen, s: Shape, t: nat, inHandler: bool)
    requires IsTrapRun(run, vs, seen) && Follows(run, seen, s, t, inHandler)
    ensures vs(t + Length(s)).priv == vs(t).priv
    ensures inHandler ==> vs(t + Length(s)) == vs(t)
    decreases s
  {
    match s
    case Quiet => assert TrapEdgeAt(run, vs, seen, t);
    case Touch => assert TrapEdgeAt(run, vs, seen, t);
    case Episode(h) => EpisodeRestores(run, vs, seen, h, t);
    case Guarded(_, readGap, inner, _, _) =>
      StretchesKeep(run, vs, seen, inner, t + 2 + readGap, false);
      GuardKeeps(run, vs, seen, s, t);
  }

  lemma {:induction false} StretchesKeep(run: CoreRun, vs: TrapRun, seen: Seen, ss: seq<Shape>, t: nat, inHandler: bool)
    requires IsTrapRun(run, vs, seen) && FollowsAll(run, seen, ss, t, inHandler)
    ensures vs(t + Lengths(ss)).priv == vs(t).priv
    ensures inHandler ==> vs(t + Lengths(ss)) == vs(t)
    decreases ss, 0
  {
    if ss != [] {
      StretchKeeps(run, vs, seen, ss[0], t, inHandler);
      StretchesKeep(run, vs, seen, ss[1..], t + Length(ss[0]), inHandler);
    }
  }

  /** A trap and its return, however deeply guarded handlers nest in between, seen on the trap machine. */
  lemma {:induction false} EpisodeRestores(run: CoreRun, vs: TrapRun, seen: Seen, handler: seq<Shape>, t: nat)
    requires IsTrapRun(run, vs, seen) && Follows(run, seen, Episode(handler), t, false)
    ensures var u := t + 1 + Lengths(handler);
            && vs(u).epc == Aligned(ExceptionPc(run(t))) && HoldsTrappedPc(run(t), vs(u).epc)
            && vs(u + 1)
               == TrapState(vs(t).mie, [true], USER, Aligned(ExceptionPc(run(t))), vs(t).priv)
    decreases handler, 1
  {
    assert TrapEdgeAt(run, vs, seen, t);
    StretchesKeep(run, vs, seen, handler, t + 1, true);
    assert TrapEdgeAt(run, vs, seen, t + 1 + Lengths(handler));
    TrappedPc(run(t), vs(t + 1 + Lengths(handler)).epc);
  }

  /** The privilege throughout [t, t + n]. */
  ghost predicate InMachineMode(vs: TrapRun, t: nat, n: nat) {
    forall u: nat :: t <= u <= t + n ==> vs(u).priv == MACHINE
  }

  lemma {:induction false} QuietMode(run: CoreRun, vs: TrapRun, seen: Seen, t: nat, k: nat)
    requires IsTrapRun(run, vs, seen) && vs(t).priv == MACHINE
    requires forall u: nat :: t <= u < t + k ==> NoTransfer(run(u))
    ensures InMachineMode(vs, t, k)
  {
    if k > 0 {
      QuietMode(run, vs, seen, t, k - 1);
      assert TrapEdgeAt(run, vs, seen, t + k - 1);
      assert vs(t + k - 1).priv == MACHINE;
    }
  }

  lemma GuardReads(run: CoreRun, t: nat, pcFirst: bool, gap: nat)
    requires ReadsBoth(run, t, pcFirst, gap)
    ensures forall u: nat :: t <= u < t + 2 + gap ==> NoTransfer(run(u))
  {
  }

  lemma GuardMode(run: CoreRun, vs: TrapRun, seen: Seen, s: Shape, t: nat)
    requires IsTrapRun(run, vs, seen) && s.Guarded?
    requires InMachineMode(vs, t, 2 + s.readGap) && InMachineMode(vs, t + 2 + s.readGap, Lengths(s.inner))
    requires WritesBoth(run, seen, t, s, t + 2 + s.readGap + Lengths(s.inner))
    ensures InMachineMode(vs, t, Length(s))
  {
    var u := t + 2 + s.readGap + Lengths(s.inner);
    assert vs(u).priv == MACHINE;
    QuietMode(run, vs, seen, u, 2 + s.backGap);
  }

  /** From the cycle after a trap up to its return, every cycle runs in M mode, nested handlers included. */
  lemma {:induction false} StretchMode(run: CoreRun, vs: TrapRun, seen: Seen, s: Shape, t: nat, inHandler: bool)
    requires IsTrapRun(run, vs, seen) && Follows(run, seen, s, t, inHandler)
    requires vs(t).priv == MACHINE
    ensures InMachineMode(vs, t, Length(s))
    decreases s
  {
    match s
    case Quiet => QuietMode(run, vs, seen, t, 1);
    case Touch => QuietMode(run, vs, seen, t, 1);
    case Episode(h) =>
      EpisodeMode(run, vs, seen, h, t);
      EpisodeRestores(run, vs, seen, h, t);
    case Guarded(pcReadFirst, readGap, inner, _, _) =>
      var u := t + 2 + readGap;
      GuardReads(run, t, pcReadFirst, readGap);
      QuietMode(run, vs, seen, t, 2 + readGap);
      assert vs(u).priv == MACHINE;
      StretchesMode(run, vs, seen, inner, u, false);
      GuardMode(run, vs, seen, s, t);
  }

  lemma {:induction false} StretchesMode(run: CoreRun, vs: TrapRun, seen: Seen, ss: seq<Shape>, t: nat, inHandler: bool)
    requires IsTrapRun(run, vs, seen) && FollowsAll(run, seen, ss, t, inHandler)
    requires vs(t).priv == MACHINE
    ensures InMachineMode(vs, t, Lengths(ss))
    decreases ss, 0
  {
    if ss != [] {
      StretchMode(run, vs, seen, ss[0], t, inHandler);
      StretchesMode(run, vs, seen, ss[1..], t + Length(ss[0]), inHandler);
    }
  }

  lemma {:induction false} EpisodeMode(run: CoreRun, vs: TrapRun, seen: Seen, handler: seq<Shape>, t: nat)
    requires IsTrapRun(run, vs, seen) && Follows(run, seen, Episode(handler), t, false)
    ensures InMachineMode(vs, t + 1, Lengths(handler))
    decreases handler, 1
  {
    assert TrapEdgeAt(run, vs, seen, t);
    StretchesMode(run, vs, seen, handler, t + 1, true);
  }

  /** The trap at `t` with its return at `u`: what the return exposes, what it leaves, and the mode in between. */
  ghost predicate Restores(run: CoreRun, vs: TrapRun, t: nat, u: nat) {
    && t < u && HoldsTrappedPc(run(t), vs(u).epc)
    && vs(u + 1) == TrapState(vs(t).mie, [true], USER, vs(u).epc, vs(t).priv)
    && InMachineMode(vs, t + 1, u - (t + 1))
  }

  lemma TrapRunRestores(run: CoreRun, vs: TrapRun, seen: Seen, handler: seq<Shape>, t: nat)
    requires IsTrapRun(run, vs, seen) && Follows(run, seen, Episode(handler), t, false)
    ensures Restores(run, vs, t, t + 1 + Lengths(handler))
  {
    EpisodeRestores(run, vs, seen, handler, t);
    TrappedPc(run(t), vs(t + 1 + Lengths(handler)).epc);
    EpisodeMode(run, vs, seen, handler, t);
  }

  /**
   * Well-nested traps restore the closed loop. In every run, for every trap whose handler nests further traps
   * only under a write-back of mstatus and mepc: in the cycle of its return the core sees the saved address
   * with bit 0 clear; after it the interrupt enable and the privilege are those of the trapped cycle, mpie is
   * set and mpp is U; and every cycle in between ran in M mode.
   */
  lemma WellNestedTrapsRestore(x: Ibex, run: CoreRun, ms: Trace, handler: seq<Shape>, t: nat)
    requires Fixture(x) && IsRun(x, run, ms)
    requires Follows(run, ReadsOf(x, run, ms), Episode(handler), t, false)
    ensures Restores(run, TrapStates(x, ms), t, t + 1 + Lengths(handler))
  {
    ClosedLoopIsTrapRun(x, run, ms);
    TrapRunRestores(run, TrapStates(x, ms), ReadsOf(x, run, ms), handler, t);
  }

  /** In the cycle of its return, mepc holds the program counter of the stage that the trap interrupted. */
  lemma ReturnSeesTrappedPc(x: Ibex, run: CoreRun, ms: Trace, handler: seq<Shape>, t: nat)
    requires Fixture(x) && IsRun(x, run, ms)
    requires Follows(run, ReadsOf(x, run, ms), Episode(handler), t, false)
    ensures HoldsTrappedPc(run(t), MepcOut(x, ms(t + 1 + Lengths(handler)).csr))
  {
    WellNestedTrapsRestore(x, run, ms, handler, t);
  }

  // ----- Without the write-back -----

  lemma {:induction false} LengthsAppend(a: seq<Shape>, b: seq<Shape>)
    ensures Lengths(a + b) == Lengths(a) + Lengths(b)
  {
    if a == [] {
      assert a + b == b;
    } else {
      LengthsAppend(a[1..], b);
      assert (a + b)[1..] == a[1..] + b && (a + b)[0] == a[0];
    }
  }

  lemma {:induction false} FollowsAppend(
    run: CoreRun, seen: Seen, a: seq<Shape>, b: seq<Shape>, t: nat, inHandler: bool)
    ensures FollowsAll(run, seen, a + b, t, inHandler)
            <==> FollowsAll(run, seen, a, t, inHandler) && FollowsAll(run, seen, b, t + Lengths(a), inHandler)
  {
    if a == [] {
      assert a + b == b;
    } else {
      FollowsAppend(run, seen, a[1..], b, t + Length(a[0]), inHandler);
      assert (a + b)[1..] == a[1..] + b && (a + b)[0] == a[0];
    }
  }

  /** Without traps of its own and other CSR writes, a stretch is one that a handler may hold. */
  lemma {:induction false} GuardedOnly(run: CoreRun, seen: Seen, ss: seq<Shape>, t: nat)
    requires FollowsAll(run, seen, ss, t, false) && forall j :: 0 <= j < |ss| ==> !ss[j].Episode? && !ss[j].Touch?
    ensures FollowsAll(run, seen, ss, t, true)
  {
    if ss != [] {
      assert ss[0].Quiet? || ss[0].Guarded?;
      GuardedOnly(run, seen, ss[1..], t + Length(ss[0]));
    }
  }

  /**
   * A trap at `t` and its return at `u`. Whatever the handler does in `before`, it then takes a trap at `b`, of
   * handler `inner`, outside any write-back; after that it holds guarded and quiet stretches only.
   */
  predicate NestsUnguarded(
    run: CoreRun, seen: Seen, t: nat, before: seq<Shape>, inner: seq<Shape>, after: seq<Shape>)
  {
    var b := t + 1 + Lengths(before);
    && IsEntry(run(t)) && FollowsAll(run, seen, before, t + 1, false)
    && Follows(run, seen, Episode(inner), b, false)
    && FollowsAll(run, seen, after, b + 2 + Lengths(inner), true)
    && IsExit(run(OuterReturn(t, before, inner, after)))
  }

  /** The cycle of the outer return. */
  function OuterReturn(t: nat, before: seq<Shape>, inner: seq<Shape>, after: seq<Shape>): nat {
    t + 3 + Lengths(before) + Lengths(inner) + Lengths(after)
  }

  lemma ModeUpToReturn(
    run: CoreRun, vs: TrapRun, seen: Seen, t: nat, before: seq<Shape>, inner: seq<Shape>, after: seq<Shape>)
    requires IsTrapRun(run, vs, seen) && NestsUnguarded(run, seen, t, before, inner, after)
    ensures InMachineMode(vs, t + 1, OuterReturn(t, before, inner, after) - (t + 1))
  {
    var b := t + 1 + Lengths(before);
    var e := b + 2 + Lengths(inner);
    assert TrapEdgeAt(run, vs, seen, t);
    StretchesMode(run, vs, seen, before, t + 1, false);
    assert vs(b).priv == MACHINE;
    StretchMode(run, vs, seen, Episode(inner), b, false);
    assert vs(e).priv == MACHINE;
    StretchesMode(run, vs, seen, after, e, true);
  }

  /** The outer return lands at the address of the handler's last unguarded trap, in U mode with interrupts enabled. */
  lemma NestedWithoutWriteBack(
    run: CoreRun, vs: TrapRun, seen: Seen, t: nat, before: seq<Shape>, inner: seq<Shape>, after: seq<Shape>)
    requires IsTrapRun(run, vs, seen) && NestsUnguarded(run, seen, t, before, inner, after)
    ensures var u, pc := OuterReturn(t, before, inner, after), Aligned(ExceptionPc(run(t + 1 + Lengths(before))));
            && vs(u).epc == pc
            && vs(u + 1) == TrapState([true], [true], USER, pc, USER)
  {
    var b := t + 1 + Lengths(before);
    EpisodeRestores(run, vs, seen, inner, b);
    StretchesKeep(run, vs, seen, after, b + 2 + Lengths(inner), true);
    assert TrapEdgeAt(run, vs, seen, OuterReturn(t, before, inner, after));
  }

  /** What such a run must have started from to come out right all the same; `b` is the nested trap's cycle. */
  ghost predicate HappensToMatch(run: CoreRun, vs: TrapRun, t: nat, b: nat) {
    vs(t).mie == [true] && vs(t).priv == USER && Aligned(ExceptionPc(run(t))) == Aligned(ExceptionPc(run(b)))
  }

  lemma UnguardedRestoresIff(
    run: CoreRun, vs: TrapRun, seen: Seen, t: nat, before: seq<Shape>, inner: seq<Shape>, after: seq<Shape>)
    requires IsTrapRun(run, vs, seen) && NestsUnguarded(run, seen, t, before, inner, after)
    ensures Restores(run, vs, t, OuterReturn(t, before, inner, after))
            <==> HappensToMatch(run, vs, t, t + 1 + Lengths(before))
  {
    NestedWithoutWriteBack(run, vs, seen, t, before, inner, after);
    TrappedPc(run(t), vs(OuterReturn(t, before, inner, after)).epc);
    ModeUpToReturn(run, vs, seen, t, before, inner, after);
  }

  /**
   * The write-back is needed. In every run of the closed loop, when a handler takes a trap outside any write-back,
   * whatever it did before and with only guarded and quiet stretches after, the outer return is right if and only
   * if the interrupted program ran in U mode with interrupts enabled and was to resume at the very address where
   * the handler itself was interrupted.
   */
  lemma WriteBackNeeded(
    x: Ibex, run: CoreRun, ms: Trace, t: nat, before: seq<Shape>, inner: seq<Shape>, after: seq<Shape>)
    requires Fixture(x) && IsRun(x, run, ms)
    requires NestsUnguarded(run, ReadsOf(x, run, ms), t, before, inner, after)
    ensures Restores(run, TrapStates(x, ms), t, OuterReturn(t, before, inner, after))
            <==> HappensToMatch(run, TrapStates(x, ms), t, t + 1 + Lengths(before))
  {
    ClosedLoopIsTrapRun(x, run, ms);
    UnguardedRestoresIff(run, TrapStates(x, ms), ReadsOf(x, run, ms), t, before, inner, after);
  }

  /** The last trap a handler takes outside its guarded stretches, or -1. */
  function LastTrap(handler: seq<Shape>): (k: int)
    ensures -1 <= k < |handler| && (k >= 0 ==> handler[k].Episode?)
    ensures forall j :: k < j < |handler| ==> !handler[j].Episode?
  {
    if handler == [] then -1
    else if handler[|handler| - 1].Episode? then |handler| - 1
    else LastTrap(handler[..|handler| - 1])
  }

  /** A trap at `t` whose handler may do anything up to its last unguarded trap, and nothing unguarded after it. */
  predicate Handles(run: CoreRun, seen: Seen, t: nat, handler: seq<Shape>) {
    && IsEntry(run(t)) && FollowsAll(run, seen, handler, t + 1, false) && IsExit(run(t + 1 + Lengths(handler)))
    && forall j :: LastTrap(handler) < j < |handler| ==> !handler[j].Touch?
  }

  /** A trap followed by a stretch without another. */
  lemma TrapFirst(run: CoreRun, seen: Seen, inner: seq<Shape>, after: seq<Shape>, t: nat)
    requires FollowsAll(run, seen, [Episode(inner)] + after, t, false)
    requires forall j :: 0 <= j < |after| ==> !after[j].Episode? && !after[j].Touch?
    ensures Follows(run, seen, Episode(inner), t, false) && FollowsAll(run, seen, after, t + 2 + Lengths(inner), true)
  {
    var rest := [Episode(inner)] + after;
    assert rest[0] == Episode(inner) && rest[1..] == after;
    GuardedOnly(run, seen, after, t + 2 + Lengths(inner));
  }

  lemma TrapLengths(before: seq<Shape>, inner: seq<Shape>, after: seq<Shape>)
    ensures Lengths(before + ([Episode(inner)] + after)) == Lengths(before) + 2 + Lengths(inner) + Lengths(after)
  {
    var rest := [Episode(inner)] + after;
    assert rest[0] == Episode(inner) && rest[1..] == after;
    LengthsAppend(before, rest);
  }

  lemma TrapParts(run: CoreRun, seen: Seen, t: nat, before: seq<Shape>, inner: seq<Shape>, after: seq<Shape>)
    requires FollowsAll(run, seen, before + ([Episode(inner)] + after), t, false)
    requires forall j :: 0 <= j < |after| ==> !after[j].Episode? && !after[j].Touch?
    ensures FollowsAll(run, seen, before, t, false)
    ensures Follows(run, seen, Episode(inner), t + Lengths(before), false)
    ensures FollowsAll(run, seen, after, t + Lengths(before) + 2 + Lengths(inner), true)
  {
    FollowsAppend(run, seen, before, [Episode(inner)] + after, t, false);
    TrapFirst(run, seen, inner, after, t + Lengths(before));
  }

  lemma Assembled(run: CoreRun, seen: Seen, t: nat, before: seq<Shape>, inner: seq<Shape>, after: seq<Shape>, b: nat)
    requires b == t + 1 + Lengths(before)
    requires IsEntry(run(t)) && IsExit(run(OuterReturn(t, before, inner, after)))
    requires FollowsAll(run, seen, before, t + 1, false)
    requires Follows(run, seen, Episode(inner), b, false) && FollowsAll(run, seen, after, b + 2 + Lengths(inner), true)
    ensures NestsUnguarded(run, seen, t, before, inner, after)
  {
  }

  lemma SplitAtLastTrap(handler: seq<Shape>, k: nat)
    requires k == LastTrap(handler)
    ensures handler == handler[..k] + ([Episode(handler[k].handler)] + handler[k + 1..])
  {
  }

  lemma NoUnguardedTrap(run: CoreRun, seen: Seen, t: nat, handler: seq<Shape>)
    requires Handles(run, seen, t, handler) && LastTrap(handler) < 0
    ensures Follows(run, seen, Episode(handler), t, false)
  {
    GuardedOnly(run, seen, handler, t + 1);
  }

  lemma NothingAfter(handler: seq<Shape>, before: seq<Shape>, inner: seq<Shape>, after: seq<Shape>)
    requires handler == before + ([Episode(inner)] + after)
    requires forall j :: |before| < j < |handler| ==> !handler[j].Episode? && !handler[j].Touch?
    ensures forall j :: 0 <= j < |after| ==> !after[j].Episode? && !after[j].Touch?
  {
    forall j | 0 <= j < |after| ensures !after[j].Episode? && !after[j].Touch? {
      assert handler[|before| + 1 + j] == after[j];
    }
  }

  /** Nothing traps unguarded, or the last such trap happens to leave what was interrupted. */
  ghost predicate ComesOutRight(run: CoreRun, vs: TrapRun, t: nat, handler: seq<Shape>) {
    var k := LastTrap(handler);
    k < 0 || HappensToMatch(run, vs, t, t + 1 + Lengths(handler[..k]))
  }

  lemma NothingNests(run: CoreRun, vs: TrapRun, t: nat, handler: seq<Shape>)
    requires LastTrap(handler) < 0
    ensures ComesOutRight(run, vs, t, handler)
  {
  }

  lemma LastTrapDecides(run: CoreRun, vs: TrapRun, t: nat, handler: seq<Shape>, k: nat, b: nat)
    requires k == LastTrap(handler) && b == t + 1 + Lengths(handler[..k])
    ensures ComesOutRight(run, vs, t, handler) <==> HappensToMatch(run, vs, t, b)
  {
  }

  lemma GuardedHandler(run: CoreRun, vs: TrapRun, seen: Seen, t: nat, handler: seq<Shape>)
    requires IsTrapRun(run, vs, seen) && Handles(run, seen, t, handler) && LastTrap(handler) < 0
    ensures Restores(run, vs, t, t + 1 + Lengths(handler))
  {
    NoUnguardedTrap(run, seen, t, handler);
    TrapRunRestores(run, vs, seen, handler, t);
  }

  lemma PartsOf(
    run: CoreRun, seen: Seen, t: nat, handler: seq<Shape>, before: seq<Shape>, inner: seq<Shape>, after: seq<Shape>)
    requires FollowsAll(run, seen, handler, t, false) && handler == before + ([Episode(inner)] + after)
    requires forall j :: |before| < j < |handler| ==> !handler[j].Episode? && !handler[j].Touch?
    ensures FollowsAll(run, seen, before, t, false)
    ensures Follows(run, seen, Episode(inner), t + Lengths(before), false)
    ensures FollowsAll(run, seen, after, t + Lengths(before) + 2 + Lengths(inner), true)
  {
    NothingAfter(handler, before, inner, after);
    TrapParts(run, seen, t, before, inner, after);
  }

  /** A handler, split at its last unguarded trap. */
  lemma SplitHandler(run: CoreRun, seen: Seen, t: nat, handler: seq<Shape>, k: nat)
    returns (before: seq<Shape>, inner: seq<Shape>, after: seq<Shape>, b: nat)
    requires FollowsAll(run, seen, handler, t, false) && k == LastTrap(handler)
    requires forall j :: k < j < |handler| ==> !handler[j].Touch?
    ensures before == handler[..k] && b == t + Lengths(before)
    ensures Lengths(handler) == Lengths(before) + 2 + Lengths(inner) + Lengths(after)
    ensures FollowsAll(run, seen, before, t, false)
    ensures Follows(run, seen, Episode(inner), b, false)
    ensures FollowsAll(run, seen, after, b + 2 + Lengths(inner), true)
  {
    before, inner, after := handler[..k], handler[k].handler, handler[k + 1..];
    b := t + Lengths(before);
    SplitAtLastTrap(handler, k);
    TrapLengths(before, inner, after);
    PartsOf(run, seen, t, handler, before, inner, after);
  }

  lemma FindLastTrap(run: CoreRun, seen: Seen, t: nat, handler: seq<Shape>, k: nat)
    returns (before: seq<Shape>, inner: seq<Shape>, after: seq<Shape>)
    requires Handles(run, seen, t, handler) && k == LastTrap(handler)
    ensures NestsUnguarded(run, seen, t, before, inner, after) && before == handler[..k]
    ensures OuterReturn(t, before, inner, after) == t + 1 + Lengths(handler)
  {
    var b;
    before, inner, after, b := SplitHandler(run, seen, t + 1, handler, k);
    assert OuterReturn(t, before, inner, after) == t + 1 + Lengths(handler);
    Assembled(run, seen, t, before, inner, after, b);
  }

  lemma UnguardedHandler(run: CoreRun, vs: TrapRun, seen: Seen, t: nat, handler: seq<Shape>, k: nat)
    requires IsTrapRun(run, vs, seen) && Handles(run, seen, t, handler) && k == LastTrap(handler)
    ensures Restores(run, vs, t, t + 1 + Lengths(handler))
            <==> HappensToMatch(run, vs, t, t + 1 + Lengths(handler[..k]))
  {
    var before, inner, after := FindLastTrap(run, seen, t, handler, k);
    UnguardedRestoresIff(run, vs, seen, t, before, inner, after);
  }

  lemma HandlerOnTrapRun(run: CoreRun, vs: TrapRun, seen: Seen, t: nat, handler: seq<Shape>)
    requires IsTrapRun(run, vs, seen) && Handles(run, seen, t, handler)
    ensures Restores(run, vs, t, t + 1 + Lengths(handler)) <==> ComesOutRight(run, vs, t, handler)
  {
    if LastTrap(handler) < 0 {
      GuardedHandler(run, vs, seen, t, handler);
      NothingNests(run, vs, t, handler);
    } else {
      UnguardedHandler(run, vs, seen, t, handler, LastTrap(handler));
      LastTrapDecides(run, vs, t, handler, LastTrap(handler), t + 1 + Lengths(handler[..LastTrap(handler)]));
    }
  }

  /**
   * Which handlers restore. In every run of the closed loop a trap whose handler does nothing unguarded after its
   * last unguarded trap restores the interrupted state if and only if there is no such trap, or the interrupted
   * state happens to be the one that this trap leaves behind.
   */
  lemma HandlerRestoresIff(x: Ibex, run: CoreRun, ms: Trace, t: nat, handler: seq<Shape>)
    requires Fixture(x) && IsRun(x, run, ms) && Handles(run, ReadsOf(x, run, ms), t, handler)
    ensures Restores(run, TrapStates(x, ms), t, t + 1 + Lengths(handler))
            <==> ComesOutRight(run, TrapStates(x, ms), t, handler)
  {
    ClosedLoopIsTrapRun(x, run, ms);
    HandlerOnTrapRun(run, TrapStates(x, ms), ReadsOf(x, run, ms), t, handler);
  }
}
