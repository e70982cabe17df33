/** Scanning an address map into the PLIC model: registers bucketed by role, then put into source and context order. */
module PlicScan {
  import opened Options
  import PlicEmitter

  datatype Role = PriorityReg | PendingReg | EnableReg | ThresholdReg | ClaimReg

  /** A register of the unrolled address map; registers outside the PLIC carry no role. */
  datatype Node = Node(
    name: string, role: Option<Role>, address: nat, idx: Option<nat>, emitReadPulse: bool, emitWritePulse: bool)

  datatype Scan = Scan(
    pending: Option<Node>, enables: seq<Node>, thresholds: seq<Node>, claims: seq<Node>, priorities: seq<Node>)

  /** Source ID for a priority register: its last array index. */
  function SourceKey(r: Node): nat { if r.idx.Some? then r.idx.value else 0 }

  function AddressKey(r: Node): nat { r.address }

  // ----- Stable sorting -----

  function InsertBy(r: Node, s: seq<Node>, key: Node -> nat): seq<Node> {
    if s == [] || key(r) <= key(s[0]) then [r] + s else [s[0]] + InsertBy(r, s[1..], key)
  }

  function StableSort(s: seq<Node>, key: Node -> nat): seq<Node> {
    if s == [] then [] else InsertBy(s[0], StableSort(s[1..], key), key)
  }

  function WithRole(s: seq<Node>, role: Role): seq<Node> {
    if s == [] then [] else WithRole(s[..|s| - 1], role) + if s[|s| - 1].role == Some(role) then [s[|s| - 1]] else []
  }

  predicate Ordered(s: seq<Node>, key: Node -> nat) {
    forall i, j :: 0 <= i < j < |s| ==> key(s[i]) <= key(s[j])
  }

  lemma {:induction false} InsertKeeps(r: Node, s: seq<Node>, key: Node -> nat)
    ensures multiset(InsertBy(r, s, key)) == multiset{r} + multiset(s)
    ensures forall x :: x in InsertBy(r, s, key) ==> x == r || x in s
  {
    if s != [] && key(r) > key(s[0]) {
      InsertKeeps(r, s[1..], key);
      assert s == [s[0]] + s[1..];
    }
  }

  lemma {:induction false} InsertOrders(r: Node, s: seq<Node>, key: Node -> nat)
    requires Ordered(s, key)
    ensures Ordered(InsertBy(r, s, key), key)
  {
    if s != [] && key(r) > key(s[0]) {
      var rest := InsertBy(r, s[1..], key);
      InsertOrders(r, s[1..], key);
      InsertKeeps(r, s[1..], key);
      forall k | 0 <= k < |rest| ensures key(s[0]) <= key(rest[k]) {
        assert rest[k] in rest;
      }
    }
  }

  /** The sort orders its input and loses nothing. */
  lemma {:induction false} SortOrders(s: seq<Node>, key: Node -> nat)
    ensures Ordered(StableSort(s, key), key)
    ensures multiset(StableSort(s, key)) == multiset(s)
  {
    if s != [] {
      SortOrders(s[1..], key);
      InsertOrders(s[0], StableSort(s[1..], key), key);
      InsertKeeps(s[0], StableSort(s[1..], key), key);
      assert s == [s[0]] + s[1..];
    }
  }

  /** The registers of a list with key `v`, in list order. */
  function WithKey(s: seq<Node>, key: Node -> nat, v: nat): seq<Node> {
    if s == [] then [] else (if key(s[0]) == v then [s[0]] else []) + WithKey(s[1..], key, v)
  }

  lemma {:induction false} InsertStable(r: Node, s: seq<Node>, key: Node -> nat, v: nat)
    requires Ordered(s, key)
    ensures WithKey(InsertBy(r, s, key), key, v) == (if key(r) == v then [r] else []) + WithKey(s, key, v)
  {
    if s != [] && key(r) > key(s[0]) {
      InsertStable(r, s[1..], key, v);
      assert InsertBy(r, s, key)[1..] == InsertBy(r, s[1..], key);
      if key(r) == v { assert WithKey(s, key, v) == WithKey(s[1..], key, v); }
    } else {
      assert InsertBy(r, s, key)[1..] == s;
    }
  }

  /** Registers with equal keys keep the order in which the map lists them. */
  lemma {:induction false} SortStable(s: seq<Node>, key: Node -> nat, v: nat)
    ensures WithKey(StableSort(s, key), key, v) == WithKey(s, key, v)
  {
    if s != [] {
      SortStable(s[1..], key, v);
      SortOrders(s[1..], key);
      InsertStable(s[0], StableSort(s[1..], key), key, v);
    }
  }

  /** Keys identify registers. */
  ghost predicate KeysDiffer(s: seq<Node>, key: Node -> nat) {
    forall x, y :: x in s && y in s && key(x) == key(y) ==> x == y
  }

  lemma SameHead(a: seq<Node>, b: seq<Node>, key: Node -> nat)
    requires Ordered(a, key) && Ordered(b, key) && multiset(a) == multiset(b) && KeysDiffer(a, key) && a != []
    ensures b != [] && a[0] == b[0]
  {
    assert a[0] in multiset(b);
    assert b[0] in multiset(a);
    var j :| 0 <= j < |b| && b[j] == a[0];
    var i :| 0 <= i < |a| && a[i] == b[0];
    assert key(a[0]) <= key(a[i]) && key(b[0]) <= key(b[j]);
    assert a[0] in a && b[0] in a;
  }

  lemma SameTail(a: seq<Node>, b: seq<Node>)
    requires a != [] && b != [] && a[0] == b[0] && multiset(a) == multiset(b)
    ensures multiset(a[1..]) == multiset(b[1..])
  {
    assert a == [a[0]] + a[1..] && b == [b[0]] + b[1..];
    assert multiset(a[1..]) == multiset(a) - multiset{a[0]};
  }

  /** Two orderings of the same registers are the same list when keys identify them. */
  lemma {:induction false} OrderIsUnique(a: seq<Node>, b: seq<Node>, key: Node -> nat)
    requires Ordered(a, key) && Ordered(b, key) && multiset(a) == multiset(b) && KeysDiffer(a, key)
    ensures a == b
  {
    if a == [] {
      assert |multiset(b)| == 0;
    } else {
      SameHead(a, b, key);
      SameTail(a, b);
      OrderIsUnique(a[1..], b[1..], key);
      assert a == [a[0]] + a[1..] && b == [b[0]] + b[1..];
    }
  }

  // ----- The scan -----

  /** The last pending register wins; a later one replaces an earlier one. */
  function LastOf(s: seq<Node>): Option<Node> {
    if s == [] then None else Some(s[|s| - 1])
  }

  function ScanOf(children: seq<Node>): Scan {
    Scan(
      LastOf(WithRole(children, PendingReg)),
      StableSort(WithRole(children, EnableReg), AddressKey), StableSort(WithRole(children, ThresholdReg), AddressKey),
      StableSort(WithRole(children, ClaimReg), AddressKey), StableSort(WithRole(children, PriorityReg), SourceKey))
  }

  method ScanPlic(children: seq<Node>) returns (model: Scan)
    ensures model == ScanOf(children)
  {
    var pending: Option<Node> := None;
    var enables: seq<Node>, thresholds: seq<Node>, claims: seq<Node>, priorities: seq<Node> := [], [], [], [];
    for k := 0 to |children|
      invariant pending == LastOf(WithRole(children[..k], PendingReg))
      invariant enables == WithRole(children[..k], EnableReg) && thresholds == WithRole(children[..k], ThresholdReg)
      invariant claims == WithRole(children[..k], ClaimReg) && priorities == WithRole(children[..k], PriorityReg)
    {
      var child := children[k];
      assert children[..k + 1][..k] == children[..k];
      if child.role.Some? {
        match child.role.value
        case PriorityReg => priorities := priorities + [child];
        case PendingReg => pending := Some(child);
        case EnableReg => enables := enables + [child];
        case ThresholdReg => thresholds := thresholds + [child];
        case ClaimReg => claims := claims + [child];
      }
    }
    assert children[..|children|] == children;
    model := Scan(
      pending, StableSort(enables, AddressKey), StableSort(thresholds, AddressKey),
      StableSort(claims, AddressKey), StableSort(priorities, SourceKey));
  }

  // ----- What the scan means -----

  lemma {:induction false} RoleMembers(s: seq<Node>, role: Role, r: Node)
    ensures multiset(WithRole(s, role))[r] == if r.role == Some(role) then multiset(s)[r] else 0
  {
    if s != [] {
      RoleMembers(s[..|s| - 1], role, r);
      assert s == s[..|s| - 1] + [s[|s| - 1]];
    }
  }

  lemma RoleSet(s: seq<Node>, role: Role)
    ensures forall r :: r in WithRole(s, role) <==> r in s && r.role == Some(role)
  {
    forall r ensures r in WithRole(s, role) <==> r in s && r.role == Some(role) {
      RoleMembers(s, role, r);
      assert r in WithRole(s, role) <==> multiset(WithRole(s, role))[r] > 0;
      assert r in s <==> multiset(s)[r] > 0;
    }
  }

  /** A list of exactly the registers of a role, each as often as the address map lists it, in key order. */
  ghost predicate Lists(list: seq<Node>, children: seq<Node>, role: Role, key: Node -> nat) {
    && Ordered(list, key)
    && forall r :: multiset(list)[r] == if r.role == Some(role) then multiset(children)[r] else 0
  }

  lemma SortLists(children: seq<Node>, role: Role, key: Node -> nat)
    ensures Lists(StableSort(WithRole(children, role), key), children, role, key)
  {
    SortOrders(WithRole(children, role), key);
    forall r
      ensures multiset(WithRole(children, role))[r] == if r.role == Some(role) then multiset(children)[r] else 0
    {
      RoleMembers(children, role, r);
    }
  }

  /** Ascending addresses. */
  ghost predicate Climbing(list: seq<Node>) {
    forall i, j :: 0 <= i < j < |list| ==> list[i].address <= list[j].address
  }

  /** Ascending array indices; a register without one counts as index 0. */
  ghost predicate IndexClimbing(list: seq<Node>) {
    forall i, j :: 0 <= i < j < |list| && list[i].idx.Some? && list[i].idx.value > 0 ==>
      list[j].idx.Some? && list[i].idx.value <= list[j].idx.value
  }

  /** Contexts are numbered by ascending address in all three lists, sources by ascending index. */
  lemma ScanOrders(children: seq<Node>)
    ensures var m := ScanOf(children);
            && Lists(m.enables, children, EnableReg, AddressKey)
            && Lists(m.thresholds, children, ThresholdReg, AddressKey)
            && Lists(m.claims, children, ClaimReg, AddressKey)
            && Lists(m.priorities, children, PriorityReg, SourceKey)
            && Climbing(m.enables) && Climbing(m.thresholds) && Climbing(m.claims) && IndexClimbing(m.priorities)
  {
    SortLists(children, EnableReg, AddressKey);
    SortLists(children, ThresholdReg, AddressKey);
    SortLists(children, ClaimReg, AddressKey);
    SortLists(children, PriorityReg, SourceKey);
  }

  /** Each list keeps the map's order among registers of one address, or one index. */
  lemma ScanStable(children: seq<Node>, v: nat)
    ensures var m := ScanOf(children);
            && WithKey(m.enables, AddressKey, v) == WithKey(WithRole(children, EnableReg), AddressKey, v)
            && WithKey(m.thresholds, AddressKey, v) == WithKey(WithRole(children, ThresholdReg), AddressKey, v)
            && WithKey(m.claims, AddressKey, v) == WithKey(WithRole(children, ClaimReg), AddressKey, v)
            && WithKey(m.priorities, SourceKey, v) == WithKey(WithRole(children, PriorityReg), SourceKey, v)
  {
    SortStable(WithRole(children, EnableReg), AddressKey, v);
    SortStable(WithRole(children, ThresholdReg), AddressKey, v);
    SortStable(WithRole(children, ClaimReg), AddressKey, v);
    SortStable(WithRole(children, PriorityReg), SourceKey, v);
  }

  lemma SameMembers(a: seq<Node>, b: seq<Node>, role: Role)
    requires multiset(a) == multiset(b)
    ensures multiset(WithRole(a, role)) == multiset(WithRole(b, role))
  {
    forall r ensures multiset(WithRole(a, role))[r] == multiset(WithRole(b, role))[r] {
      RoleMembers(a, role, r);
      RoleMembers(b, role, r);
    }
  }

  lemma SortedKeysDiffer(s: seq<Node>, key: Node -> nat)
    requires KeysDiffer(s, key)
    ensures KeysDiffer(StableSort(s, key), key)
  {
    SortSize(s, key);
  }

  lemma SameList(a: seq<Node>, b: seq<Node>, role: Role, key: Node -> nat)
    requires multiset(a) == multiset(b) && KeysDiffer(WithRole(a, role), key)
    ensures StableSort(WithRole(a, role), key) == StableSort(WithRole(b, role), key)
  {
    var x, y := WithRole(a, role), WithRole(b, role);
    SameMembers(a, b, role);
    SortOrders(x, key);
    SortOrders(y, key);
    SortedKeysDiffer(x, key);
    OrderIsUnique(StableSort(x, key), StableSort(y, key), key);
  }

  lemma SamePending(a: seq<Node>, b: seq<Node>)
    requires multiset(a) == multiset(b)
    requires forall p, q :: p in a && q in a && p.role == q.role == Some(PendingReg) ==> p == q
    ensures LastOf(WithRole(a, PendingReg)) == LastOf(WithRole(b, PendingReg))
  {
    RoleSet(a, PendingReg);
    RoleSet(b, PendingReg);
    var x, y := WithRole(a, PendingReg), WithRole(b, PendingReg);
    assert forall r :: r in b <==> r in multiset(b);
    assert forall r :: r in a <==> r in multiset(a);
    assert forall r :: r in x <==> r in y;
    assert x != [] ==> x[|x| - 1] in y;
    assert y != [] ==> y[|y| - 1] in x;
  }

  /** Within every role one key per register, and at most one pending register. */
  ghost predicate WellAddressed(children: seq<Node>) {
    && KeysDiffer(WithRole(children, EnableReg), AddressKey) && KeysDiffer(WithRole(children, ThresholdReg), AddressKey)
    && KeysDiffer(WithRole(children, ClaimReg), AddressKey) && KeysDiffer(WithRole(children, PriorityReg), SourceKey)
    && forall p, q :: p in children && q in children && p.role == q.role == Some(PendingReg) ==> p == q
  }

  /**
   * Context and source numbers depend on addresses and indices alone: an address map whose registers are listed
   * in any other order scans to the same model.
   */
  lemma ScanIgnoresOrder(a: seq<Node>, b: seq<Node>)
    requires multiset(a) == multiset(b) && WellAddressed(a)
    ensures ScanOf(a) == ScanOf(b)
  {
    SameList(a, b, EnableReg, AddressKey);
    SameList(a, b, ThresholdReg, AddressKey);
    SameList(a, b, ClaimReg, AddressKey);
    SameList(a, b, PriorityReg, SourceKey);
    SamePending(a, b);
  }

  // ----- What a fixture needs for the generator to accept it -----

  /** The scan as the logic generator's validator looks at it. */
  function ModelOf(m: Scan): PlicEmitter.PlicModel {
    PlicEmitter.PlicModel(
      m.pending.Some?, |m.enables|, |m.thresholds|,
      seq(|m.claims|, c requires 0 <= c < |m.claims| =>
        PlicEmitter.ClaimRegister(m.claims[c].emitReadPulse, m.claims[c].emitWritePulse)),
      |m.priorities|)
  }

  lemma SortSize(s: seq<Node>, key: Node -> nat)
    ensures |StableSort(s, key)| == |s|
    ensures forall r :: r in StableSort(s, key) <==> r in s
  {
    SortOrders(s, key);
    assert |multiset(StableSort(s, key))| == |multiset(s)|;
    assert forall r :: r in s <==> r in multiset(s);
    assert forall r :: r in StableSort(s, key) <==> r in multiset(StableSort(s, key));
  }

  /** How many registers carry a role. */
  function Many(children: seq<Node>, role: Role): nat { |WithRole(children, role)| }

  /**
   * A fixture is accepted if and only if it has a pending register, equally many enable, threshold and claim
   * registers and at least one of each, a priority register beyond source 0, and both pulses on every claim register.
   */
  lemma FixtureAccepted(children: seq<Node>)
    ensures PlicEmitter.Accepts(ModelOf(ScanOf(children))) <==>
            && Many(children, PendingReg) > 0
            && Many(children, EnableReg) == Many(children, ThresholdReg) == Many(children, ClaimReg) >= 1
            && Many(children, PriorityReg) >= 2
            && forall r :: r in children && r.role == Some(ClaimReg) ==> r.emitReadPulse && r.emitWritePulse
  {
    SortSize(WithRole(children, EnableReg), AddressKey);
    SortSize(WithRole(children, ThresholdReg), AddressKey);
    SortSize(WithRole(children, ClaimReg), AddressKey);
    SortSize(WithRole(children, PriorityReg), SourceKey);
    RoleSet(children, ClaimReg);
    var claims, model := ScanOf(children).claims, ModelOf(ScanOf(children));
    assert forall r :: r in claims <==> r in children && r.role == Some(ClaimReg);
    assert forall c :: 0 <= c < |claims| ==>
             (PlicEmitter.PulsesDeclared(model.claims[c]) <==> claims[c].emitReadPulse && claims[c].emitWritePulse);
  }
}
