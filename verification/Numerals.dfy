/** Positional notation: most significant digit first. */
module Numerals {
  function Power(base: nat, k: nat): (p: nat)
    ensures base > 0 ==> p > 0
  {
    if k == 0 then 1 else base * Power(base, k - 1)
  }

  ghost predicate AreDigits(ds: seq<nat>, base: nat) {
    forall i :: 0 <= i < |ds| ==> ds[i] < base
  }

  function Value(ds: seq<nat>, base: nat): nat {
    if ds == [] then 0 else Value(ds[..|ds| - 1], base) * base + ds[|ds| - 1]
  }

  /** The last `k` digits of `v`. */
  function Write(v: nat, base: nat, k: nat): (ds: seq<nat>)
    requires base > 0
    ensures |ds| == k && AreDigits(ds, base)
    decreases k, v
  {
    if k == 0 then [] else Write(v / base, base, k - 1) + [v % base]
  }

  lemma {:induction false} ValueOfWrite(v: nat, base: nat, k: nat)
    requires base > 0 && v < Power(base, k)
    ensures Value(Write(v, base, k), base) == v
    decreases k
  {
    if k > 0 {
      QuotientBound(v, base, Power(base, k - 1));
      ValueOfWrite(v / base, base, k - 1);
      ValueAppend(Write(v / base, base, k - 1), v % base, base);
      Recombined(v, base);
    }
  }

  lemma {:induction false} WriteOfValue(ds: seq<nat>, base: nat)
    requires base > 0 && AreDigits(ds, base)
    ensures Value(ds, base) < Power(base, |ds|) && Write(Value(ds, base), base, |ds|) == ds
  {
    if ds != [] {
      var front, last := ds[..|ds| - 1], ds[|ds| - 1];
      WriteOfValue(front, base);
      Division(Value(front, base), base, last);
      Scaled(Value(front, base), base, last, Power(base, |front|));
      assert ds == front + [last];
    }
  }

  lemma ValueAppend(ds: seq<nat>, d: nat, base: nat)
    ensures Value(ds + [d], base) == Value(ds, base) * base + d
  {
  }

  lemma Recombined(v: nat, base: nat)
    requires base > 0
    ensures (v / base) * base + v % base == v
  {
  }

  lemma QuotientBound(v: nat, base: nat, p: nat)
    requires base > 0 && v < base * p
    ensures v / base < p
  {
  }

  lemma SmallMultiple(base: nat, k: int)
    requires 0 - base < base * k < base
    ensures k == 0
  {
  }

  lemma Division(q: nat, base: nat, r: nat)
    requires r < base
    ensures (q * base + r) / base == q && (q * base + r) % base == r
  {
    var n := q * base + r;
    var d, m := n / base, n % base;
    assert n == d * base + m by { Recombined(n, base); }
    assert base * (d - q) == d * base - q * base;
    SmallMultiple(base, d - q);
  }

  lemma Scaled(q: nat, base: nat, r: nat, p: nat)
    requires q < p && r < base
    ensures q * base + r < base * p
  {
    assert q * base + base == (q + 1) * base <= p * base;
  }
}
