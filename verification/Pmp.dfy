/** Physical memory protection registers: entry configurations, addresses and the security configuration. */
module Pmp {
  import opened Bits

  datatype Mode = Off | Tor | Na4 | Napot

  datatype Entry = Entry(lock: bool, mode: Mode, exec: bool, write: bool, read: bool)

  datatype Security = Security(rlb: bool, mmwp: bool, mml: bool)

  /** The registers; entry `i` is `cfg[i]` with address `addr[i]`. */
  datatype State = State(cfg: seq<Entry>, addr: seq<BitVec>, sec: Security)

  /** A CSR access: `we` is already qualified by the access checks. */
  datatype Input = Input(we: bool, csr: nat, wdata: Word)

  const CSR_PMPCFG0 := 0x3A0
  const CSR_PMPADDR0 := 0x3B0
  const CSR_MSECCFG := 0x747
  const ADDR_MSB := 33

  /** Bits kept of an address register: the low ones vanish with a coarser grain. */
  function AddrWidth(granularity: nat): nat {
    if granularity > 0 then if granularity < ADDR_MSB then ADDR_MSB - granularity else 0 else 32
  }

  // ----- Write data -----

  function WriteMode(granularity: nat, low: bool, high: bool): Mode {
    if !high then if low then Tor else Off
    else if low then Napot
    else if granularity == 0 then Na4 else Off
  }

  /** The entry encoded in byte `i % 4` of the write data; write-only is reserved unless `mml` is set. */
  function WriteEntry(granularity: nat, sec: Security, i: nat, w: Word): Entry {
    var b := i % 4 * 8;
    Entry(
      w[b + 7], WriteMode(granularity, w[b + 3], w[b + 4]), w[b + 2],
      if sec.mml then w[b + 1] else w[b + 1] && w[b], w[b])
  }

  /** A locked entry that lets M mode execute once `mml` is set. */
  predicate MachineExec(e: Entry) {
    e.lock && (
      || (!e.read && !e.write && e.exec) || (!e.read && e.write && !e.exec)
      || (!e.read && e.write && e.exec) || (e.read && !e.write && e.exec))
  }

  function WriteAddr(granularity: nat, w: Word): BitVec {
    var width := AddrWidth(granularity);
    if width <= 32 then w[32 - width..] else w
  }

  // ----- One clock edge -----

  /** Locked unless locking is bypassed. */
  predicate Locked(s: State, i: nat) {
    i < |s.cfg| && s.cfg[i].lock && !s.sec.rlb
  }

  predicate AnyLocked(s: State) {
    exists i :: 0 <= i < |s.cfg| && Locked(s, i)
  }

  predicate CfgWritten(granularity: nat, s: State, x: Input, i: nat) {
    && x.we && !Locked(s, i) && x.csr == CSR_PMPCFG0 + i / 4
    && !(s.sec.mml && !s.sec.rlb && MachineExec(WriteEntry(granularity, s.sec, i, x.wdata)))
  }

  predicate AddrWritten(s: State, x: Input, i: nat) {
    && x.we && !Locked(s, i) && x.csr == CSR_PMPADDR0 + i
    && (i + 1 < |s.cfg| ==> !Locked(s, i + 1) || s.cfg[i + 1].mode != Tor)
  }

  const MML_BIT := 0
  const MMWP_BIT := 1
  const RLB_BIT := 2

  function NextSecurity(s: State, x: Input): Security {
    if x.we && x.csr == CSR_MSECCFG then
      Security(
        !AnyLocked(s) && x.wdata[RLB_BIT],
        s.sec.mmwp || x.wdata[MMWP_BIT],
        s.sec.mml || x.wdata[MML_BIT])
    else s.sec
  }

  function Step(granularity: nat, s: State, x: Input): State {
    State(
      seq(|s.cfg|, i requires 0 <= i < |s.cfg| =>
        if CfgWritten(granularity, s, x, i) then WriteEntry(granularity, s.sec, i, x.wdata) else s.cfg[i]),
      seq(|s.addr|, i requires 0 <= i < |s.addr| =>
        if AddrWritten(s, x, i) then WriteAddr(granularity, x.wdata) else s.addr[i]),
      NextSecurity(s, x))
  }

  /** The register file: one configuration and one address register per region. */
  class Registers {
    const granularity: nat
    var cfg: seq<Entry>
    var addr: seq<BitVec>
    var sec: Security

    function View(): State reads this { State(cfg, addr, sec) }

    /** Any reset configuration; one address per entry. */
    constructor (granularity: nat, reset_: State)
      requires |reset_.cfg| == |reset_.addr|
      ensures this.granularity == granularity && View() == reset_
    {
      this.granularity := granularity;
      cfg, addr, sec := reset_.cfg, reset_.addr, reset_.sec;
    }

    /** `pmp_cfg_locked`, and whether any of its bits is set. */
    method Locks() returns (locked: seq<bool>, any: bool)
      ensures |locked| == |cfg| && forall k :: 0 <= k < |cfg| ==> locked[k] == Locked(View(), k)
      ensures any == AnyLocked(View())
    {
      locked, any := [], false;
      for i := 0 to |cfg|
        invariant |locked| == i && forall k :: 0 <= k < i ==> locked[k] == Locked(View(), k)
        invariant any ==> AnyLocked(View())
        invariant !any ==> forall k :: 0 <= k < i ==> !Locked(View(), k)
      {
        var l := cfg[i].lock && !sec.rlb;
        assert l == Locked(View(), i);
        locked, any := locked + [l], any || l;
      }
    }

    /** The next configuration and address of one region. */
    method Region(i: nat, locked: seq<bool>, x: Input) returns (entry: Entry, address: BitVec)
      requires i < |cfg| == |addr| == |locked| && forall k :: 0 <= k < |cfg| ==> locked[k] == Locked(View(), k)
      ensures entry == Step(granularity, View(), x).cfg[i] && address == Step(granularity, View(), x).addr[i]
    {
      entry, address := cfg[i], addr[i];
      var wdata := WriteEntry(granularity, sec, i, x.wdata);
      var suppressed := sec.mml && !sec.rlb && MachineExec(wdata);
      if x.we && !locked[i] && !suppressed && x.csr == CSR_PMPCFG0 + i / 4 {
        entry := wdata;
      }
      var below := i + 1 < |cfg| && locked[i + 1] && cfg[i + 1].mode == Tor;
      if x.we && !locked[i] && !below && x.csr == CSR_PMPADDR0 + i {
        address := WriteAddr(granularity, x.wdata);
      }
    }

    method Clock(x: Input)
      requires |cfg| == |addr|
      modifies this
      ensures |cfg| == |addr| && View() == Step(granularity, old(View()), x)
    {
      ghost var was := View();
      ghost var next := Step(granularity, was, x);
      var locked, any := Locks();
      var nextCfg: seq<Entry>, nextAddr: seq<BitVec> := [], [];
      for i := 0 to |cfg|
        invariant View() == was && nextCfg == next.cfg[..i] && nextAddr == next.addr[..i]
      {
        var entry, address := Region(i, locked, x);
        nextCfg, nextAddr := nextCfg + [entry], nextAddr + [address];
      }
      if x.we && x.csr == CSR_MSECCFG {
        sec := Security(
          if any then false else x.wdata[RLB_BIT],
          if sec.mmwp then true else x.wdata[MMWP_BIT],
          if sec.mml then true else x.wdata[MML_BIT]);
      }
      cfg, addr := nextCfg, nextAddr;
    }
  }

  // ----- Runs from any reset configuration -----

  type Stimulus = nat -> Input

  type Trace = nat -> State

  ghost predicate StepsAt(granularity: nat, ins: Stimulus, ss: Trace, t: nat) {
    ss(t + 1) == Step(granularity, ss(t), ins(t))
  }

  ghost predicate IsRun(granularity: nat, ins: Stimulus, ss: Trace) {
    |ss(0).cfg| == |ss(0).addr| && forall t: nat :: StepsAt(granularity, ins, ss, t)
  }

  // ----- What a write leaves -----

  /** The four encodings of the mode field. */
  ghost predicate ModeDecodes(granularity: nat, high: bool, low: bool, mode: Mode) {
    && (!high && !low ==> mode == Off) && (!high && low ==> mode == Tor) && (high && low ==> mode == Napot)
    && (high && !low ==> mode == if granularity == 0 then Na4 else Off)
  }

  /** Entry `e` is what byte `b` of the word encodes, least significant bit first: R, W, X, mode, two zeros, L. */
  ghost predicate Decodes(granularity: nat, mml: bool, w: Word, b: nat, e: Entry)
    requires b < 4
  {
    && e.read == w[8 * b] && e.write == (w[8 * b + 1] && (mml || w[8 * b])) && e.exec == w[8 * b + 2]
    && ModeDecodes(granularity, w[8 * b + 4], w[8 * b + 3], e.mode) && e.lock == w[8 * b + 7]
  }

  /** Byte `b` asks for a locked entry that M mode may execute under `mml`: X without W, or W without R. */
  predicate AsksMachineExec(w: Word, b: nat)
    requires b < 4
  {
    w[8 * b + 7] && ((w[8 * b + 2] && !w[8 * b + 1]) || (w[8 * b + 1] && !w[8 * b]))
  }

  /** Entry `i` accepts a configuration write. */
  predicate EntryOpen(s: State, w: Word, i: nat)
    requires i < |s.cfg|
  {
    (s.sec.rlb || !s.cfg[i].lock) && !(s.sec.mml && !s.sec.rlb && AsksMachineExec(w, i % 4))
  }

  lemma WrittenEntry(granularity: nat, s: State, w: Word, i: nat)
    ensures Decodes(granularity, s.sec.mml, w, i % 4, WriteEntry(granularity, s.sec, i, w))
    ensures s.sec.mml ==> (MachineExec(WriteEntry(granularity, s.sec, i, w)) <==> AsksMachineExec(w, i % 4))
  {
  }

  /**
   * A write to pmpcfg takes effect in the same cycle on each entry of the addressed group of four that is open, bit by
   * bit; every other entry keeps its configuration.
   */
  lemma ConfigWrite(granularity: nat, ins: Stimulus, ss: Trace, t: nat, i: nat)
    requires IsRun(granularity, ins, ss) && i < |ss(t).cfg|
    ensures |ss(t + 1).cfg| == |ss(t).cfg|
    ensures if ins(t).we && ins(t).csr == 0x3A0 + i / 4 && EntryOpen(ss(t), ins(t).wdata, i) then
              Decodes(granularity, ss(t).sec.mml, ins(t).wdata, i % 4, ss(t + 1).cfg[i])
            else ss(t + 1).cfg[i] == ss(t).cfg[i]
  {
    assert StepsAt(granularity, ins, ss, t);
    WrittenEntry(granularity, ss(t), ins(t).wdata, i);
  }

  /** The address bits that a grain of this size keeps. */
  function Kept(granularity: nat, w: Word): BitVec {
    if granularity <= 1 then w else if granularity <= 33 then w[granularity - 1..] else []
  }

  lemma WrittenAddress(granularity: nat, w: Word)
    ensures WriteAddr(granularity, w) == Kept(granularity, w)
  {
  }

  /** Entry `i`'s address accepts a write: it is not locked, and neither is a top-of-range entry above it. */
  predicate AddressOpen(s: State, i: nat)
    requires i < |s.cfg|
  {
    s.sec.rlb || (!s.cfg[i].lock && (i + 1 < |s.cfg| ==> !(s.cfg[i + 1].lock && s.cfg[i + 1].mode == Tor)))
  }

  /** A write to pmpaddr takes effect exactly when that address is open. */
  lemma AddressWrite(granularity: nat, ins: Stimulus, ss: Trace, t: nat, i: nat)
    requires IsRun(granularity, ins, ss) && i < |ss(t).cfg| == |ss(t).addr|
    ensures |ss(t + 1).addr| == |ss(t).addr|
    ensures ss(t + 1).addr[i]
         == if ins(t).we && ins(t).csr == 0x3B0 + i && AddressOpen(ss(t), i) then Kept(granularity, ins(t).wdata)
            else ss(t).addr[i]
  {
    assert StepsAt(granularity, ins, ss, t);
    WrittenAddress(granularity, ins(t).wdata);
  }

  /** A write to mseccfg sets mml (bit 0) and mmwp (bit 1) for good; rlb (bit 2) only while no entry is locked. */
  lemma SecurityWrite(granularity: nat, ins: Stimulus, ss: Trace, t: nat)
    requires IsRun(granularity, ins, ss)
    ensures var now, next, w := ss(t).sec, ss(t + 1).sec, ins(t).wdata;
            if ins(t).we && ins(t).csr == 0x747 then
              && next.mml == (now.mml || w[0]) && next.mmwp == (now.mmwp || w[1])
              && next.rlb == (w[2] && (now.rlb || forall i :: 0 <= i < |ss(t).cfg| ==> !ss(t).cfg[i].lock))
            else next == now
  {
    assert StepsAt(granularity, ins, ss, t);
    if !ss(t).sec.rlb && !AnyLocked(ss(t)) {
      forall i | 0 <= i < |ss(t).cfg| ensures !ss(t).cfg[i].lock { assert !Locked(ss(t), i); }
    }
    if i :| 0 <= i < |ss(t).cfg| && ss(t).cfg[i].lock && !ss(t).sec.rlb { assert Locked(ss(t), i); }
  }

  // ----- What no write can undo -----

  /** What stays the same while entry `i` is locked. */
  ghost predicate Frozen(s: State, now: State, i: nat)
    requires i < |s.cfg| == |s.addr|
  {
    && |now.cfg| == |s.cfg| && |now.addr| == |s.addr|
    && !now.sec.rlb && now.cfg[i] == s.cfg[i] && now.addr[i] == s.addr[i]
    && (i > 0 && s.cfg[i].mode == Tor ==> now.addr[i - 1] == s.addr[i - 1])
  }

  lemma FrozenStep(granularity: nat, s: State, now: State, x: Input, i: nat)
    requires i < |s.cfg| == |s.addr| && s.cfg[i].lock && Frozen(s, now, i)
    ensures Frozen(s, Step(granularity, now, x), i)
  {
    assert Locked(now, i);
    if i > 0 && s.cfg[i].mode == Tor {
      assert !AddrWritten(now, x, i - 1);
    }
  }

  /**
   * Lock permanence. In every run, from any reset configuration and for any number of regions: once an entry
   * is locked while rule-locking bypass is off, the bypass stays off and the entry's configuration and address
   * never change again, nor does the address below it if the entry is a top-of-range one.
   */
  lemma {:induction false} LockIsPermanent(granularity: nat, ins: Stimulus, ss: Trace, t0: nat, t: nat, i: nat)
    requires IsRun(granularity, ins, ss) && t0 <= t && |ss(t0).cfg| == |ss(t0).addr| && Locked(ss(t0), i)
    ensures Frozen(ss(t0), ss(t), i)
  {
    if t > t0 {
      LockIsPermanent(granularity, ins, ss, t0, t - 1, i);
      assert StepsAt(granularity, ins, ss, t - 1);
      FrozenStep(granularity, ss(t0), ss(t - 1), ins(t - 1), i);
    }
  }

  /** The two lockdown bits are sticky in every run. */
  lemma {:induction false} LockdownIsSticky(granularity: nat, ins: Stimulus, ss: Trace, t0: nat, t: nat)
    requires IsRun(granularity, ins, ss) && t0 <= t
    ensures ss(t0).sec.mml ==> ss(t).sec.mml
    ensures ss(t0).sec.mmwp ==> ss(t).sec.mmwp
  {
    if t > t0 {
      LockdownIsSticky(granularity, ins, ss, t0, t - 1);
      assert StepsAt(granularity, ins, ss, t - 1);
    }
  }

  /**
   * Under `mml` with the bypass off, no write can turn an entry into a locked one that lets M mode execute:
   * an entry that allows it after a cycle allowed it before.
   */
  lemma NoNewMachineExec(granularity: nat, s: State, x: Input, i: nat)
    requires s.sec.mml && !s.sec.rlb && i < |s.cfg| && MachineExec(Step(granularity, s, x).cfg[i])
    ensures MachineExec(s.cfg[i])
  {
  }

  /** No entry holds the reserved write-only encoding. */
  ghost predicate NoReserved(s: State) {
    forall i :: 0 <= i < |s.cfg| ==> !(s.cfg[i].write && !s.cfg[i].read)
  }

  /** In a run that starts without reserved encodings, none appears for as long as `mml` is unset. */
  lemma {:induction false} ReservedNeverAppears(granularity: nat, ins: Stimulus, ss: Trace, t: nat)
    requires IsRun(granularity, ins, ss) && NoReserved(ss(0)) && !ss(t).sec.mml
    ensures NoReserved(ss(t))
  {
    if t > 0 {
      assert StepsAt(granularity, ins, ss, t - 1);
      ReservedNeverAppears(granularity, ins, ss, t - 1);
    }
  }
}
