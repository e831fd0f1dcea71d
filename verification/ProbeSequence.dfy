/** Probing with an odd step on a power-of-two table
    (compiler/src/ir/graph_deps.cpp:34-43): the probes of one round visit every slot once. */
module ProbeSequence {

  /** Slot of the i-th probe from hash h in a table of n slots. */
  function Probe(h: nat, s: nat, n: nat, i: nat): (k: nat)
    requires n > 0
    ensures k < n
  {
    (h + i * s) % n
  }

  // ----- Remainders -----

  lemma MulMinus(a: int, b: int, c: int)
    ensures (a - b) * c == a * c - b * c
  {
  }

  lemma MulPlus(a: int, b: int, c: int)
    ensures (a + b) * c == a * c + b * c
  {
  }

  lemma MulAssoc(a: int, b: int, c: int)
    ensures (a * b) * c == a * (b * c) == (a * c) * b
  {
  }

  lemma SmallMultiple(z: int, n: int, d: int)
    requires d == z * n && -n < d < n
    ensures z == 0
  {
    if z >= 1 {
      MulMinus(z, 1, n);
    } else if z <= -1 {
      MulPlus(z, 1, n);
    }
  }

  lemma QuotientIsUnique(a: int, n: int, q: int, r: int)
    requires n > 0 && a == q * n + r && 0 <= r < n
    ensures a % n == r
  {
    var p := a / n;
    assert a == p * n + a % n;
    MulMinus(p, q, n);
    SmallMultiple(p - q, n, r - a % n);
  }

  lemma AddMultiple(a: int, q: int, n: int)
    requires n > 0
    ensures (a + q * n) % n == a % n
  {
    var p := a / n;
    assert a == p * n + a % n;
    MulPlus(p, q, n);
    QuotientIsUnique(a + q * n, n, p + q, a % n);
  }

  /** Each probe is one step past the one before, as the loop computes it. */
  lemma ProbeAdvances(h: nat, s: nat, n: nat, i: nat)
    requires n > 0
    ensures Probe(h, s, n, i + 1) == (Probe(h, s, n, i) + s) % n
  {
    var a := h + i * s;
    MulPlus(i, 1, s);
    assert a == (a / n) * n + a % n;
    AddMultiple(a % n + s, a / n, n);
  }

  // ----- Powers of two -----

  lemma {:induction false} PowersMultiply(a: nat, b: nat)
    ensures Pow2(a + b) == Pow2(a) * Pow2(b)
  {
    if a > 0 {
      PowersMultiply(a - 1, b);
      MulAssoc(2, Pow2(a - 1), Pow2(b));
    }
  }

  lemma PowerThirtyTwo()
    ensures Pow2(32) == 0x1_0000_0000
  {
    assert Pow2(8) == 256 by { assert Pow2(4) == 16; }
    PowersMultiply(8, 8);
    PowersMultiply(16, 16);
  }

  /** Wrapping to 32 bits before masking makes no difference. */
  lemma WrapThenMask(x: nat, e: nat)
    requires e <= 32
    ensures (x % 0x1_0000_0000) % Pow2(e) == x % Pow2(e)
  {
    var q := x / 0x1_0000_0000;
    assert x == q * 0x1_0000_0000 + x % 0x1_0000_0000;
    PowerThirtyTwo();
    PowersMultiply(32 - e, e);
    MulAssoc(q, Pow2(32 - e), Pow2(e));
    AddMultiple(x % 0x1_0000_0000, q * Pow2(32 - e), Pow2(e));
  }

  function Pow2(e: nat): (n: nat)
    ensures n > 0
  {
    if e == 0 then 1 else 2 * Pow2(e - 1)
  }

  predicate IsInverse(s: int, t: int, c: int, n: int) {
    s * t == 1 + c * n
  }

  // ----- Inverses -----

  /** An odd number has an inverse modulo every power of two: s t == 1 + c 2^e. */
  function Inverse(s: nat, e: nat): (r: (nat, nat))
    requires s % 2 == 1
    ensures IsInverse(s, r.0, r.1, Pow2(e))
  {
    if e == 0 then
      assert s * 1 == 1 + (s - 1) * 1;
      (1, s - 1)
    else
      var (t, c) := Inverse(s, e - 1);
      LiftInverse(s, t, c, Pow2(e - 1));
      if c % 2 == 0 then (t, c / 2) else (t + Pow2(e - 1), (c + s) / 2)
  }

  lemma LiftInverse(s: nat, t: nat, c: nat, n: nat)
    requires s % 2 == 1 && IsInverse(s, t, c, n)
    ensures c % 2 == 0 ==> IsInverse(s, t, c / 2, 2 * n)
    ensures c % 2 == 1 ==> IsInverse(s, t + n, (c + s) / 2, 2 * n)
  {
    if c % 2 == 0 {
      MulAssoc(c / 2, 2, n);
    } else {
      MulAssoc((c + s) / 2, 2, n);
      MulPlus(t, n, s);
      MulPlus(c, s, n);
      assert (c + s) / 2 * 2 == c + s;
    }
  }

  lemma TimesInverse(d: int, s: int, t: int, c: int, n: int)
    requires IsInverse(s, t, c, n)
    ensures (d * s) * t == (d * t) * s == d + (d * c) * n
  {
    MulAssoc(d, s, t);
    assert (d * s) * t == d * (1 + c * n);
    MulPlus(1, c * n, d);
    MulAssoc(d, c, n);
  }

  /** The probe that reaches slot k. */
  function ProbeOf(h: nat, s: nat, e: nat, k: nat): (i: nat)
    requires s % 2 == 1 && k < Pow2(e)
    ensures i < Pow2(e)
  {
    ProbeWith(h, Inverse(s, e).0, Pow2(e), k)
  }

  function ProbeWith(h: nat, t: nat, n: nat, k: nat): (i: nat)
    requires k < n
    ensures i < n
  {
    ((k + (n - h % n)) * t) % n
  }

  /** Every slot is probed. */
  lemma ProbeReaches(h: nat, s: nat, e: nat, k: nat)
    requires s % 2 == 1 && k < Pow2(e)
    ensures Probe(h, s, Pow2(e), ProbeOf(h, s, e, k)) == k
  {
    var (t, c) := Inverse(s, e);
    LandsOn(h, s, t, c, Pow2(e), k);
  }

  lemma LandsOn(h: nat, s: nat, t: nat, c: nat, n: nat, k: nat)
    requires k < n && IsInverse(s, t, c, n)
    ensures Probe(h, s, n, ProbeWith(h, t, n, k)) == k
  {
    var d := k + (n - h % n);
    var p := d * t;
    var q := OffsetOfProbe(d, s, t, c, n, p);
    Landing(h, p % n * s, n, d * c, q * s, k);
  }

  lemma OffsetOfProbe(d: int, s: int, t: int, c: int, n: int, p: int) returns (q: int)
    requires n > 0 && IsInverse(s, t, c, n) && p == d * t
    ensures p % n * s == d + (d * c) * n - (q * s) * n
  {
    q := p / n;
    var qn := q * n;
    assert p % n == p - qn;
    MulMinus(p, qn, s);
    TimesInverse(d, s, t, c, n);
    MulAssoc(q, n, s);
  }

  lemma Landing(h: nat, offset: int, n: nat, a: int, b: int, k: nat)
    requires k < n && offset == k + (n - h % n) + a * n - b * n
    ensures (h + offset) % n == k
  {
    var m := h / n;
    assert h == m * n + h % n;
    Collect(m, a, b, n);
    QuotientIsUnique(h + offset, n, m + 1 + a - b, k);
  }

  lemma Collect(m: int, a: int, b: int, n: int)
    ensures (m + 1 + a - b) * n == m * n + n + a * n - b * n
  {
    MulMinus(m + 1 + a, b, n);
    MulPlus(m + 1, a, n);
    MulPlus(m, 1, n);
  }

  /** Different probes of one round see different slots. */
  lemma ProbesAreDistinct(h: nat, s: nat, e: nat, i: nat, j: nat)
    requires s % 2 == 1 && i < j < Pow2(e)
    ensures Probe(h, s, Pow2(e), i) != Probe(h, s, Pow2(e), j)
  {
    var n := Pow2(e);
    if Probe(h, s, n, i) == Probe(h, s, n, j) {
      var (t, c) := Inverse(s, e);
      var q := SameRemainder(h + i * s, h + j * s, n);
      MulMinus(j, i, s);
      TimesInverse(j - i, s, t, c, n);
      MulAssoc(q, n, t);
      MulMinus(q * t, (j - i) * c, n);
      SmallMultiple(q * t - (j - i) * c, n, j - i);
    }
  }

  lemma SameRemainder(a: int, b: int, n: int) returns (q: int)
    requires n > 0 && a % n == b % n
    ensures b - a == q * n
  {
    q := b / n - a / n;
    MulMinus(b / n, a / n, n);
  }

  /** ProbeOf is the only probe of its slot. */
  lemma ProbeIsProbeOf(h: nat, s: nat, e: nat, i: nat)
    requires s % 2 == 1 && i < Pow2(e)
    ensures ProbeOf(h, s, e, Probe(h, s, Pow2(e), i)) == i
  {
    var k := Probe(h, s, Pow2(e), i);
    var j := ProbeOf(h, s, e, k);
    ProbeReaches(h, s, e, k);
    if i < j {
      ProbesAreDistinct(h, s, e, i, j);
    } else if j < i {
      ProbesAreDistinct(h, s, e, j, i);
    }
  }
}
