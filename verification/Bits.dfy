/** Bit vectors as sequences of booleans, least significant bit first, and their reading as numbers. */
module Bits {

  type BitVec = seq<bool>

  type Word = b: BitVec | |b| == 32 witness seq(32, i => false)

  function Pow2(n: nat): (r: nat)
    ensures r >= 1
  {
    if n == 0 then 1 else 2 * Pow2(n - 1)
  }

  function ToNat(b: BitVec): (r: nat)
    ensures r < Pow2(|b|)
  {
    if b == [] then 0 else (if b[0] then 1 else 0) + 2 * ToNat(b[1..])
  }

  /** The literal `w'h<v>`: the low `w` bits of `v`. */
  function FromNat(v: nat, w: nat): (b: BitVec)
    ensures |b| == w
  {
    if w == 0 then [] else [v % 2 == 1] + FromNat(v / 2, w - 1)
  }

  /** A bit outside the vector reads as zero. */
  function Bit(b: BitVec, i: int): bool {
    0 <= i < |b| && b[i]
  }

  function Zeros(w: nat): (b: BitVec)
    ensures |b| == w && forall i :: 0 <= i < w ==> !b[i]
  {
    seq(w, i => false)
  }

  function Or(a: BitVec, b: BitVec): (r: BitVec)
    ensures |r| == |a|
    ensures forall i :: 0 <= i < |a| ==> r[i] == (a[i] || Bit(b, i))
  {
    seq(|a|, i requires 0 <= i < |a| => a[i] || Bit(b, i))
  }

  function And(a: BitVec, b: BitVec): (r: BitVec)
    ensures |r| == |a|
    ensures forall i :: 0 <= i < |a| ==> r[i] == (a[i] && Bit(b, i))
  {
    seq(|a|, i requires 0 <= i < |a| => a[i] && Bit(b, i))
  }

  function Not(a: BitVec): (r: BitVec)
    ensures |r| == |a|
    ensures forall i :: 0 <= i < |a| ==> r[i] == !a[i]
  {
    seq(|a|, i requires 0 <= i < |a| => !a[i])
  }

  /** Wrapping increment, `a +% 1`, as a rippling carry. */
  function Inc(a: BitVec): (r: BitVec)
    ensures |r| == |a|
  {
    if a == [] then [] else if a[0] then [false] + Inc(a[1..]) else [true] + a[1..]
  }

  /** `b[hi:lo]`; bits above the vector read as zero. */
  function Slice(b: BitVec, hi: nat, lo: nat): (r: BitVec)
    requires lo <= hi
    ensures |r| == hi - lo + 1
    ensures forall i :: 0 <= i < |r| ==> r[i] == Bit(b, lo + i)
  {
    seq(hi - lo + 1, i requires 0 <= i => Bit(b, lo + i))
  }

  /** Python's `int.bit_length`. */
  function BitLength(n: nat): nat {
    if n == 0 then 0 else 1 + BitLength(n / 2)
  }

  lemma {:induction false} BitLengthBounds(n: nat, i: nat)
    requires i <= n
    ensures i < Pow2(BitLength(n))
    ensures n > 0 ==> Pow2(BitLength(n) - 1) <= n
  {
    if n > 0 {
      BitLengthBounds(n / 2, i / 2);
    }
  }

  lemma {:induction false} Pow2Add(a: nat, b: nat)
    ensures Pow2(a + b) == Pow2(a) * Pow2(b)
  {
    if a > 0 {
      Pow2Add(a - 1, b);
    }
  }

  lemma {:induction false} Pow2Mono(a: nat, b: nat)
    requires a < b
    ensures 2 * Pow2(a) <= Pow2(b)
  {
    if a + 1 < b {
      Pow2Mono(a, b - 1);
    }
  }

  lemma {:induction false} ToFromNat(b: BitVec)
    ensures FromNat(ToNat(b), |b|) == b
  {
    if b != [] {
      ToFromNat(b[1..]);
      assert ToNat(b) / 2 == ToNat(b[1..]);
      assert b == [b[0]] + b[1..];
    }
  }

  lemma {:induction false} FromNatSmall(v: nat, w: nat)
    requires v < Pow2(w)
    ensures ToNat(FromNat(v, w)) == v
  {
    if w > 0 {
      FromNatSmall(v / 2, w - 1);
      assert FromNat(v, w)[1..] == FromNat(v / 2, w - 1);
    }
  }

  /** The rippling carry adds one, and wraps exactly at the all-ones value. */
  lemma {:induction false} IncValue(a: BitVec)
    ensures ToNat(Inc(a)) == if ToNat(a) + 1 == Pow2(|a|) then 0 else ToNat(a) + 1
  {
    if a != [] {
      IncValue(a[1..]);
      assert Inc(a)[1..] == if a[0] then Inc(a[1..]) else a[1..];
    }
  }

  /** Bit `k` of a literal made from a vector's value is the vector's bit `k`. */
  lemma {:induction false} FromNatBit(v: BitVec, w: nat, k: nat)
    requires k < w
    ensures FromNat(ToNat(v), w)[k] == Bit(v, k)
  {
    if v == [] {
      ZeroLiteral(w, k);
    } else if k > 0 {
      assert ToNat(v) / 2 == ToNat(v[1..]);
      FromNatBit(v[1..], w - 1, k - 1);
    }
  }

  lemma {:induction false} ZeroLiteral(w: nat, k: nat)
    requires k < w
    ensures !FromNat(0, w)[k]
  {
    if k > 0 { ZeroLiteral(w - 1, k - 1); }
  }

  predicate AllOnes(b: BitVec) {
    forall i :: 0 <= i < |b| ==> b[i]
  }

  function Ones(w: nat): (b: BitVec)
    ensures |b| == w && AllOnes(b)
  {
    seq(w, k => true)
  }

  lemma {:induction false} AllOnesValue(b: BitVec)
    ensures AllOnes(b) <==> ToNat(b) == Pow2(|b|) - 1
  {
    if b != [] {
      AllOnesValue(b[1..]);
      assert AllOnes(b) <==> b[0] && AllOnes(b[1..]) by {
        assert forall i :: 0 < i < |b| ==> b[i] == b[1..][i - 1];
      }
    }
  }

  /** Incrementing `{high, low}` increments the low part and carries out of it only when it is all ones. */
  lemma {:induction false} IncConcat(low: BitVec, high: BitVec)
    ensures Inc(low + high) == Inc(low) + if AllOnes(low) then Inc(high) else high
  {
    if low == [] {
      assert low + high == high;
    } else {
      var rest := low[1..];
      assert (low + high)[1..] == rest + high;
      IncConcat(rest, high);
      assert AllOnes(low) <==> low[0] && AllOnes(rest) by {
        assert forall i :: 0 < i < |low| ==> low[i] == rest[i - 1];
      }
    }
  }

  /** The value of `{high, low}`. */
  lemma {:induction false} ConcatValue(low: BitVec, high: BitVec)
    ensures ToNat(low + high) == ToNat(low) + Pow2(|low|) * ToNat(high)
  {
    if low == [] {
      assert low + high == high;
    } else {
      var rest, p, h := low[1..], Pow2(|low| - 1), ToNat(high);
      assert (low + high)[1..] == rest + high;
      ConcatValue(rest, high);
      DoubleProduct(p, h);
    }
  }

  lemma DoubleProduct(a: nat, b: nat)
    ensures (2 * a) * b == 2 * (a * b)
  {
  }

  lemma {:induction false} ToNatInjective(a: BitVec, b: BitVec)
    requires |a| == |b| && ToNat(a) == ToNat(b)
    ensures a == b
  {
    ToFromNat(a);
    ToFromNat(b);
  }
}
