/** The packed read view of a register: how it is assembled, and where each field ends up. */
module CsrLayout {
  import opened Bits
  import opened Sequences
  import opened CsrDesign

  /** A storage location of the CSR file. */
  datatype Target = FieldRef(reg: string, field: string) | Pulse(signal: string)

  type Store = map<Target, BitVec>

  function Get(st: Store, t: Target): BitVec {
    if t in st then st[t] else []
  }

  function Ref(r: Reg, f: Field): Target {
    FieldRef(r.name, f.name)
  }

  function Stored(st: Store, r: Reg, f: Field): BitVec {
    Get(st, Ref(r, f))
  }

  /** Every field of the design has a location of its width. */
  ghost predicate Sized(regs: seq<Reg>, st: Store) {
    forall r, f :: r in regs && f in r.fields ==> Ref(r, f) in st && |st[Ref(r, f)]| == f.Width()
  }

  /** What software sees of a field: zeros when reserved or not readable. */
  function ReadView(st: Store, r: Reg, f: Field): BitVec {
    if f.wpri || !f.swReadable then Zeros(f.Width()) else Stored(st, r, f)
  }

  // ----- Assembly -----

  /** One element of the emitted concatenation, most significant first. */
  datatype Part = Gap(width: nat) | View(field: Field)

  /** Insertion into a list sorted by descending low bit; equal keys keep their order. */
  function Insert(f: Field, sorted: seq<Field>): seq<Field> {
    if sorted == [] || sorted[0].lsb <= f.lsb then [f] + sorted
    else [sorted[0]] + Insert(f, sorted[1..])
  }

  function SortDescending(fields: seq<Field>): seq<Field> {
    if fields == [] then [] else Insert(fields[0], SortDescending(fields[1..]))
  }

  /** The parts for `sorted`, starting below bit `next + 1`. */
  function PartsFrom(sorted: seq<Field>, next: int): seq<Part> {
    if sorted == [] then if next >= 0 then [Gap(next + 1)] else []
    else
      (if sorted[0].msb < next then [Gap(next - sorted[0].msb)] else [])
      + [View(sorted[0])] + PartsFrom(sorted[1..], sorted[0].lsb - 1)
  }

  /** Appending the gap and the view of field `i` leaves the parts of the fields after it. */
  lemma PartsStep(before: seq<Part>, sorted: seq<Field>, i: nat, next: int, after: seq<Part>)
    requires i < |sorted|
    requires after
          == (if sorted[i].msb < next then before + [Gap(next - sorted[i].msb)] else before) + [View(sorted[i])]
    ensures before + PartsFrom(sorted[i..], next) == after + PartsFrom(sorted[i + 1..], sorted[i].lsb - 1)
  {
    var gap := if sorted[i].msb < next then [Gap(next - sorted[i].msb)] else [];
    assert sorted[i..][0] == sorted[i] && sorted[i..][1..] == sorted[i + 1..];
    assert after == (before + gap) + [View(sorted[i])];
    Regroup(before, gap, [View(sorted[i])]);
    Regroup(before, gap + [View(sorted[i])], PartsFrom(sorted[i + 1..], sorted[i].lsb - 1));
  }

  /** The generator's pass over the sorted fields with a running `next_bit`. */
  method ReadParts(r: Reg) returns (parts: seq<Part>)
    ensures parts == PartsFrom(SortDescending(r.fields), r.regwidth - 1)
  {
    var sorted := SortDescending(r.fields);
    var nextBit: int := r.regwidth - 1;
    parts := [];
    ghost var all := PartsFrom(sorted, nextBit);
    assert sorted[0..] == sorted;
    for i := 0 to |sorted|
      invariant parts + PartsFrom(sorted[i..], nextBit) == all
    {
      var f := sorted[i];
      ghost var before, next := parts, nextBit;
      if f.msb < nextBit { parts := parts + [Gap(nextBit - f.msb)]; }
      parts := parts + [View(f)];
      nextBit := f.lsb - 1;
      PartsStep(before, sorted, i, next, parts);
    }
    assert sorted[|sorted|..] == [];
    if nextBit >= 0 { parts := parts + [Gap(nextBit + 1)]; }
  }

  function PartBits(st: Store, r: Reg, p: Part): BitVec {
    match p
    case Gap(w) => Zeros(w)
    case View(f) => ReadView(st, r, f)
  }

  /** `{p0, p1, ...}`: the first part holds the most significant bits. */
  function Concat(st: Store, r: Reg, parts: seq<Part>): BitVec {
    if parts == [] then [] else Concat(st, r, parts[1..]) + PartBits(st, r, parts[0])
  }

  /** The read value of a register, zero-extended to the machine width. */
  function ReadValue(xlen: nat, st: Store, r: Reg): BitVec {
    if r.fields == [] then Zeros(xlen)
    else
      Concat(st, r, PartsFrom(SortDescending(r.fields), r.regwidth - 1))
      + Zeros(if r.regwidth < xlen then xlen - r.regwidth else 0)
  }

  // ----- Where everything ends up -----

  /** Fields stacked from bit `next` downwards without overlap. */
  ghost predicate Stacked(sorted: seq<Field>, next: int) {
    && next >= -1
    && (forall f :: f in sorted ==> f.lsb <= f.msb <= next)
    && forall i, j :: 0 <= i < j < |sorted| ==> sorted[j].msb < sorted[i].lsb
  }

  /** Bit `k` belongs to a field whose view has it set. */
  ghost predicate Covered(st: Store, r: Reg, fields: seq<Field>, k: int) {
    exists f :: f in fields && f.lsb <= k <= f.msb && Bit(ReadView(st, r, f), k - f.lsb)
  }

  ghost predicate ViewsSized(st: Store, r: Reg, fields: seq<Field>) {
    forall f :: f in fields ==> |ReadView(st, r, f)| == f.Width()
  }

  lemma {:induction false} ConcatAppend(st: Store, r: Reg, a: seq<Part>, b: seq<Part>)
    ensures Concat(st, r, a + b) == Concat(st, r, b) + Concat(st, r, a)
  {
    if a == [] {
      assert a + b == b;
    } else {
      assert (a + b)[1..] == a[1..] + b;
      ConcatAppend(st, r, a[1..], b);
    }
  }

  lemma {:induction false} PartsPlaceFields(st: Store, r: Reg, sorted: seq<Field>, next: int)
    requires Stacked(sorted, next) && ViewsSized(st, r, sorted)
    ensures |Concat(st, r, PartsFrom(sorted, next))| == next + 1
    ensures forall k :: 0 <= k <= next ==>
              (Concat(st, r, PartsFrom(sorted, next))[k] <==> Covered(st, r, sorted, k))
  {
    if sorted == [] {
      var parts := PartsFrom(sorted, next);
      assert next >= 0 ==> parts[1..] == [] && Concat(st, r, parts) == Zeros(next + 1);
    } else {
      var f := sorted[0];
      var rest := PartsFrom(sorted[1..], f.lsb - 1);
      forall g | g in sorted[1..] ensures g.lsb <= g.msb <= f.lsb - 1 {
        var j :| 0 < j < |sorted| && sorted[j] == g;
      }
      PartsPlaceFields(st, r, sorted[1..], f.lsb - 1);
      ConcatFirst(st, r, sorted, next);
      PlaceFirst(st, r, sorted, Concat(st, r, rest), next);
    }
  }

  /** The first field sits above the rest, below its gap. */
  lemma ConcatFirst(st: Store, r: Reg, sorted: seq<Field>, next: int)
    requires sorted != [] && sorted[0].msb <= next
    ensures Concat(st, r, PartsFrom(sorted, next))
         == Concat(st, r, PartsFrom(sorted[1..], sorted[0].lsb - 1)) + ReadView(st, r, sorted[0])
            + Zeros(next - sorted[0].msb)
  {
    var f := sorted[0];
    var rest := PartsFrom(sorted[1..], f.lsb - 1);
    var gap := if f.msb < next then [Gap(next - f.msb)] else [];
    ConcatAppend(st, r, gap + [View(f)], rest);
    ConcatAppend(st, r, gap, [View(f)]);
    assert [View(f)][1..] == [];
    assert gap != [] ==> gap[1..] == [];
    assert Concat(st, r, [View(f)]) == [] + ReadView(st, r, f);
    assert Concat(st, r, gap) == Zeros(next - f.msb);
    assert PartsFrom(sorted, next) == (gap + [View(f)]) + rest;
  }

  lemma PlaceFirst(st: Store, r: Reg, sorted: seq<Field>, low: BitVec, next: int)
    requires sorted != [] && Stacked(sorted, next) && |ReadView(st, r, sorted[0])| == sorted[0].Width()
    requires |low| == sorted[0].lsb
    requires forall k :: 0 <= k < |low| ==> (low[k] <==> Covered(st, r, sorted[1..], k))
    ensures var all := low + ReadView(st, r, sorted[0]) + Zeros(next - sorted[0].msb);
            |all| == next + 1 && forall k :: 0 <= k <= next ==> (all[k] <==> Covered(st, r, sorted, k))
  {
    var f := sorted[0];
    var all := low + ReadView(st, r, f) + Zeros(next - f.msb);
    forall k | 0 <= k <= next ensures all[k] <==> Covered(st, r, sorted, k) {
      CoveredSplit(st, r, sorted, k);
      if k >= f.lsb { NotCovered(st, r, sorted, next, k); }
    }
  }

  lemma NotCovered(st: Store, r: Reg, sorted: seq<Field>, next: int, k: int)
    requires sorted != [] && Stacked(sorted, next) && k >= sorted[0].lsb
    ensures !Covered(st, r, sorted[1..], k)
  {
    forall g | g in sorted[1..] ensures g.msb < sorted[0].lsb {
      var j :| 0 < j < |sorted| && sorted[j] == g;
    }
  }

  lemma CoveredSplit(st: Store, r: Reg, fields: seq<Field>, k: int)
    requires fields != []
    ensures Covered(st, r, fields, k) <==>
            (fields[0].lsb <= k <= fields[0].msb && Bit(ReadView(st, r, fields[0]), k - fields[0].lsb))
            || Covered(st, r, fields[1..], k)
  {
    assert forall f :: f in fields <==> f == fields[0] || f in fields[1..];
  }

  lemma {:induction false} InsertStacks(f: Field, sorted: seq<Field>, next: int)
    requires Stacked(sorted, next) && f.lsb <= f.msb <= next
    requires forall g :: g in sorted ==> Disjoint(f, g)
    ensures Stacked(Insert(f, sorted), next)
    ensures forall x :: x in Insert(f, sorted) <==> x == f || x in sorted
  {
    if sorted != [] {
      assert forall x :: x in sorted <==> x == sorted[0] || x in sorted[1..];
      assert sorted[0] in sorted;
      if sorted[0].lsb > f.lsb {
        InsertStacks(f, sorted[1..], next);
        forall g | g in Insert(f, sorted[1..]) ensures g.msb < sorted[0].lsb {
          if g != f {
            var j :| 0 < j < |sorted| && sorted[j] == g;
          }
        }
      }
    }
  }

  lemma {:induction false} SortStacks(fields: seq<Field>, next: int)
    requires next >= -1 && forall f :: f in fields ==> f.lsb <= f.msb <= next
    requires forall i, j :: 0 <= i < j < |fields| ==> Disjoint(fields[i], fields[j])
    ensures Stacked(SortDescending(fields), next)
    ensures forall x :: x in SortDescending(fields) <==> x in fields
  {
    if fields != [] {
      SortStacks(fields[1..], next);
      forall g | g in SortDescending(fields[1..]) ensures Disjoint(fields[0], g) {
        var j :| 0 < j < |fields| && fields[j] == g;
      }
      InsertStacks(fields[0], SortDescending(fields[1..]), next);
      assert forall x :: x in fields <==> x == fields[0] || x in fields[1..];
    }
  }

  /** The fields that start at bit `b`, in list order. */
  function StartingAt(fields: seq<Field>, b: nat): seq<Field> {
    if fields == [] then []
    else if fields[0].lsb == b then [fields[0]] + StartingAt(fields[1..], b)
    else StartingAt(fields[1..], b)
  }

  ghost predicate Descending(s: seq<Field>) {
    forall i, j :: 0 <= i < j < |s| ==> s[i].lsb >= s[j].lsb
  }

  lemma {:induction false} InsertDescends(f: Field, sorted: seq<Field>)
    requires Descending(sorted)
    ensures Descending(Insert(f, sorted))
    ensures forall g :: g in Insert(f, sorted) ==> g == f || g in sorted
  {
    if sorted != [] && sorted[0].lsb > f.lsb {
      InsertDescends(f, sorted[1..]);
      var rest := Insert(f, sorted[1..]);
      forall i | 0 <= i < |rest| ensures sorted[0].lsb >= rest[i].lsb { assert rest[i] in rest; }
    }
  }

  lemma {:induction false} InsertStable(f: Field, sorted: seq<Field>, b: nat)
    ensures StartingAt(Insert(f, sorted), b)
         == if f.lsb == b then [f] + StartingAt(sorted, b) else StartingAt(sorted, b)
  {
    if sorted == [] || sorted[0].lsb <= f.lsb {
      assert Insert(f, sorted)[1..] == sorted;
    } else {
      InsertStable(f, sorted[1..], b);
      assert Insert(f, sorted)[1..] == Insert(f, sorted[1..]);
    }
  }

  /** The sort goes from the highest to the lowest start, and keeps the listed order of fields that start together. */
  lemma {:induction false} SortStable(fields: seq<Field>, b: nat)
    ensures Descending(SortDescending(fields))
    ensures StartingAt(SortDescending(fields), b) == StartingAt(fields, b)
  {
    if fields != [] {
      SortStable(fields[1..], b);
      InsertDescends(fields[0], SortDescending(fields[1..]));
      InsertStable(fields[0], SortDescending(fields[1..]), b);
    }
  }

  lemma OnlyField(r: Reg, f: Field, g: Field, k: int)
    requires WellPlaced(r) && f in r.fields && g in r.fields
    requires f.lsb <= k <= f.msb && g.lsb <= k <= g.msb
    ensures f == g
  {
    var i :| 0 <= i < |r.fields| && r.fields[i] == f;
    var j :| 0 <= j < |r.fields| && r.fields[j] == g;
    if i != j { assert false; }
  }

  lemma OneCovers(st: Store, r: Reg, f: Field, k: int)
    requires WellPlaced(r) && f in r.fields && f.lsb <= k <= f.msb
    ensures Covered(st, r, r.fields, k) <==> Bit(ReadView(st, r, f), k - f.lsb)
  {
    if Covered(st, r, r.fields, k) {
      var g :| g in r.fields && g.lsb <= k <= g.msb && Bit(ReadView(st, r, g), k - g.lsb);
      OnlyField(r, f, g, k);
    }
  }

  lemma ReadValueBits(xlen: nat, st: Store, r: Reg, k: nat)
    requires WellPlaced(r) && r.regwidth <= xlen && ViewsSized(st, r, r.fields) && k < xlen
    ensures |ReadValue(xlen, st, r)| == xlen
    ensures ReadValue(xlen, st, r)[k] <==> Covered(st, r, r.fields, k)
  {
    if r.fields == [] {
      assert forall f :: f !in r.fields;
    } else {
      var sorted := SortDescending(r.fields);
      SortStacks(r.fields, r.regwidth - 1);
      PartsPlaceFields(st, r, sorted, r.regwidth - 1);
      assert Covered(st, r, sorted, k) <==> Covered(st, r, r.fields, k) by {
        assert forall f :: f in sorted <==> f in r.fields;
      }
    }
  }

  /**
   * Layout. The packed read view of a well-placed register is exactly as wide as the machine word; bits
   * [msb:lsb] are the field's read view, and every bit outside the fields is zero.
   */
  lemma LayoutLaw(xlen: nat, st: Store, r: Reg)
    requires WellPlaced(r) && r.regwidth <= xlen && ViewsSized(st, r, r.fields)
    ensures |ReadValue(xlen, st, r)| == xlen
    ensures forall f :: f in r.fields ==>
              Slice(ReadValue(xlen, st, r), f.msb, f.lsb)
              == if f.swReadable && !f.wpri then Stored(st, r, f) else Zeros(f.Width())
    ensures forall k: nat :: k < xlen && (forall f :: f in r.fields ==> !(f.lsb <= k <= f.msb)) ==>
                               !ReadValue(xlen, st, r)[k]
  {
    var v := ReadValue(xlen, st, r);
    assert |v| == xlen by {
      if xlen > 0 { ReadValueBits(xlen, st, r, 0); } else { assert r.regwidth == 0 && forall f :: f !in r.fields; }
    }
    forall f | f in r.fields ensures Slice(v, f.msb, f.lsb) == ReadView(st, r, f) {
      forall k | f.lsb <= k <= f.msb ensures v[k] == ReadView(st, r, f)[k - f.lsb] {
        ReadValueBits(xlen, st, r, k);
        OneCovers(st, r, f, k);
      }
    }
    forall k: nat | k < xlen && forall f :: f in r.fields ==> !(f.lsb <= k <= f.msb)
      ensures !v[k]
    {
      ReadValueBits(xlen, st, r, k);
    }
  }
}
