/**
  Machine words as integers.

  A word is an integer below a power of two, and a field of it is named by the
  weight `p` of its lowest bit and the number `w` of values it holds (both
  powers of two wherever the linker uses them), so that the Rust expressions
  `(x >> log2(p)) & (w - 1)` and `insert(x, v, log2(p), log2(w))` become
  `Field(x, p, w)` and `Insert(x, v, p, w)`. Division and remainder are
  Euclidean, so both also read a negative number as its two's complement.
 */
module Bits {
  const U16: nat := 0x1_0000
  const U32: nat := 0x1_0000_0000
  const U64: nat := 0x1_0000_0000_0000_0000
  const U32_MAX: nat := 0xffff_ffff

  function Field(x: int, p: nat, w: nat): (f: nat)
    requires 0 < p && 0 < w
    ensures f < w
  {
    (x / p) % w
  }

  function Insert(x: int, v: int, p: nat, w: nat): int
    requires 0 < p && 0 < w
  {
    x + (v % w - Field(x, p, w)) * p
  }

  /** The number a `w`-valued two's complement field stands for. */
  function Signed(f: int, w: nat): int
  {
    if 2 * f >= w then f - w else f
  }

  /** `value` as a `w`-valued two's complement number: what a wrapping signed operation keeps. */
  function Wrap(value: int, w: nat): int
    requires 0 < w
  {
    Signed(value % w, w)
  }

  /** Whether `value` fits a two's complement number of magnitude below `limit`. */
  predicate FitsSigned(value: int, limit: int)
  {
    -limit <= value < limit
  }

  lemma MulMono(a: int, b: int, d: nat)
    requires a <= b
    ensures a * d <= b * d
  {
  }

  lemma DivModUnique(x: int, q: int, r: int, d: nat)
    requires 0 < d && 0 <= r < d && x == q * d + r
    ensures x / d == q && x % d == r
  {
    var p := x / d;
    assert x == p * d + x % d;
    if p + 1 <= q {
      MulMono(p + 1, q, d);
    }
    if q + 1 <= p {
      MulMono(q + 1, p, d);
    }
  }

  /** Every number splits into what is above a field, the field and what is below it. */
  lemma Split(x: int, p: nat, w: nat)
    requires 0 < p && 0 < w
    ensures x == ((x / p / w) * w + Field(x, p, w)) * p + x % p
  {
    var y := x / p;
    assert y == (y / w) * w + y % w;
  }

  lemma FieldOfSum(h: int, f: int, l: int, p: nat, w: nat)
    requires 0 < p && 0 < w && 0 <= l < p && 0 <= f < w
    ensures Field((h * w + f) * p + l, p, w) == f
  {
    DivModUnique((h * w + f) * p + l, h * w + f, l, p);
    DivModUnique(h * w + f, h, f, w);
  }

  lemma InsertSplit(x: int, v: int, p: nat, w: nat)
    requires 0 < p && 0 < w
    ensures Insert(x, v, p, w) == ((x / p / w) * w + v % w) * p + x % p
  {
    Split(x, p, w);
    var h, f, l := x / p / w, Field(x, p, w), x % p;
    assert (h * w + f) * p == h * w * p + f * p;
    assert (h * w + v % w) * p == h * w * p + (v % w) * p;
    assert (v % w - f) * p == (v % w) * p - f * p;
  }

  /** The inserted field reads back as what was inserted. */
  lemma InsertSame(x: int, v: int, p: nat, w: nat)
    requires 0 < p && 0 < w
    ensures Field(Insert(x, v, p, w), p, w) == v % w
  {
    InsertSplit(x, v, p, w);
    var h, f, l := x / p / w, v % w, x % p;
    var y := Insert(x, v, p, w);
    DivModUnique(y, h * w + f, l, p);
    DivModUnique(h * w + f, h, f, w);
  }

  lemma DivDiv(x: int, a: nat, b: nat)
    requires 0 < a && 0 < b
    ensures 0 < a * b && x / (a * b) == x / a / b
  {
    var q, r := x / a / b, (x / a) % b;
    assert x / a == q * b + r;
    assert x == (q * b + r) * a + x % a;
    assert (q * b + r) * a == q * (a * b) + r * a;
    assert r * a <= (b - 1) * a;
    assert (b - 1) * a == a * b - a;
    DivModUnique(x, q, r * a + x % a, a * b);
  }

  /** A field above the inserted one keeps its value. */
  lemma InsertAbove(x: int, v: int, p: nat, w: nat, k: nat, u: nat)
    requires 0 < p && 0 < w && 0 < k && 0 < u
    ensures 0 < p * w * k
    ensures Field(Insert(x, v, p, w), p * w * k, u) == Field(x, p * w * k, u)
  {
    var y := Insert(x, v, p, w);
    InsertSplit(x, v, p, w);
    var h := x / p / w;
    DivModUnique(y, h * w + v % w, x % p, p);
    DivModUnique(h * w + v % w, h, v % w, w);
    DivDiv(x, p, w);
    DivDiv(y, p, w);
    DivDiv(x, p * w, k);
    DivDiv(y, p * w, k);
  }

  lemma ModAddMultiple(x: int, k: int, d: nat)
    requires 0 < d
    ensures (x + k * d) % d == x % d && (x + k * d) / d == x / d + k
  {
    assert x == (x / d) * d + x % d;
    assert (x / d + k) * d == (x / d) * d + k * d;
    DivModUnique(x + k * d, x / d + k, x % d, d);
  }

  /** A field below the inserted one keeps its value. */
  lemma InsertBelow(x: int, v: int, q: nat, u: nat, k: nat, w: nat)
    requires 0 < q && 0 < u && 0 < k && 0 < w
    ensures 0 < q * u * k
    ensures Field(Insert(x, v, q * u * k, w), q, u) == Field(x, q, u)
  {
    assert 0 < q * u;
    assert 0 < q * u * k;
    var p := q * u * k;
    var d := v % w - Field(x, p, w);
    assert d * p == (d * (u * k)) * q by {
      assert q * u * k == (u * k) * q;
      assert d * ((u * k) * q) == (d * (u * k)) * q;
    }
    ModAddMultiple(x, d * (u * k), q);
    assert d * (u * k) == (d * k) * u;
    ModAddMultiple(x / q, d * k, u);
  }

  /** Inserting leaves a word of `p * w * k` values one. */
  lemma InsertRange(x: int, v: int, p: nat, w: nat, k: nat)
    requires 0 < p && 0 < w && 0 <= x < p * w * k
    ensures 0 <= Insert(x, v, p, w) < p * w * k
  {
    InsertSplit(x, v, p, w);
    var h, m, f := x / p / w, p * w, v % w;
    DivDiv(x, p, w);
    HighPart(x, h, x % m, m, k);
    LowPart(f, x % p, p, w);
    assert (h * w + f) * p + x % p == h * m + (f * p + x % p) by { Distribute(h, w, f, p); }
    RangeOfParts(h, f * p + x % p, m, k);
  }

  lemma Distribute(h: int, w: int, f: int, p: int)
    ensures (h * w + f) * p == h * (p * w) + f * p
  {
    assert h * w * p == h * (p * w);
  }

  lemma LowPart(f: int, l: int, p: nat, w: nat)
    requires 0 <= f < w && 0 <= l < p
    ensures 0 <= f * p + l < p * w
  {
    MulMono(f, w - 1, p);
    assert (w - 1) * p == p * w - p;
    MulMono(0, f, p);
  }

  lemma RangeOfParts(h: int, l: int, m: nat, k: nat)
    requires 0 <= h < k && 0 <= l < m
    ensures 0 <= h * m + l < m * k
  {
    MulMono(h + 1, k, m);
    MulMono(0, h, m);
  }

  lemma HighPart(x: int, h: int, l: int, m: nat, k: nat)
    requires 0 <= l < m && x == h * m + l && 0 <= x < m * k
    ensures 0 <= h < k
  {
    if h < 0 { MulMono(h, -1, m); }
    if h >= k { MulMono(k, h, m); }
  }

  lemma SignedOfMod(v: int, w: nat)
    requires 0 < w && w % 2 == 0 && FitsSigned(v, w / 2)
    ensures Signed(v % w, w) == v
  {
    if v >= 0 {
      DivModUnique(v, 0, v, w);
    } else {
      DivModUnique(v, -1, v + w, w);
    }
  }

  lemma WrapMod(v: int, w: nat)
    requires 0 < w
    ensures (Wrap(v, w) - v) % w == 0
    ensures Wrap(v, w) % w == v % w
  {
    var k := if 2 * (v % w) >= w then -1 else 0;
    assert v == (v / w) * w + v % w;
    assert (k - v / w) * w == k * w - (v / w) * w;
    assert Wrap(v, w) - v == 0 + (k - v / w) * w;
    ModAddMultiple(0, k - v / w, w);
    ModAddMultiple(v, k - v / w, w);
  }

  lemma ModOfDifference(a: int, b: int, w: nat)
    requires 0 < w
    ensures (a - b) % w == (a % w - b % w) % w
  {
    var q, r := a / w, b / w;
    assert a == q * w + a % w && b == r * w + b % w;
    assert (q - r) * w == q * w - r * w;
    ModAddMultiple(a % w - b % w, q - r, w);
  }

  lemma ModEqual(a: int, b: int, w: nat)
    requires 0 < w
    ensures a % w == b % w <==> (a - b) % w == 0
  {
    ModOfDifference(a, b, w);
    SmallMod(a % w - b % w, w);
  }

  lemma SmallMod(d: int, w: nat)
    requires 0 < d + w && d < w
    ensures d % w == 0 <==> d == 0
  {
    if d > 0 {
      DivModUnique(d, 0, d, w);
    } else if d < 0 {
      DivModUnique(d, -1, d + w, w);
    }
  }

  /** A field that does not meet the inserted one keeps its value. */
  lemma InsertOther(x: int, v: int, p: nat, w: nat, q: nat, u: nat)
    requires 0 < p && 0 < w && 0 < q && 0 < u
    requires q % (p * w) == 0 || p % (q * u) == 0
    ensures Field(Insert(x, v, p, w), q, u) == Field(x, q, u)
  {
    if q % (p * w) == 0 {
      var k := q / (p * w);
      Multiple(q, p * w, k);
      InsertAbove(x, v, p, w, k, u);
    } else {
      var k := p / (q * u);
      Multiple(p, q * u, k);
      InsertBelow(x, v, q, u, k, w);
    }
  }

  lemma Multiple(x: nat, d: nat, k: int)
    requires 0 < x && 0 < d && x % d == 0 && k == x / d
    ensures 0 < k && x == d * k
  {
    assert x == k * d + x % d;
    if k <= 0 { MulMono(k, 0, d); }
  }

  function Pow2(n: nat): (r: nat)
    ensures 0 < r
  {
    if n == 0 then 1 else 2 * Pow2(n - 1)
  }

  lemma {:induction false} Pow2Add(a: nat, b: nat)
    ensures Pow2(a + b) == Pow2(a) * Pow2(b)
  {
    if b > 0 {
      Pow2Add(a, b - 1);
      Doubled(Pow2(a), Pow2(b - 1));
      assert a + (b - 1) == a + b - 1;
      assert Pow2(a + b) == 2 * Pow2(a + b - 1) && Pow2(b) == 2 * Pow2(b - 1);
    }
    hide Pow2;
  }

  lemma Doubled(p: nat, q: nat)
    ensures p * (2 * q) == 2 * (p * q)
  {
  }
}
