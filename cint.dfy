/** Integer helpers that reproduce C semantics the renderer relies on. */
module CInt {

  /** `_min(a, b)`: `(a <= b) ? a : b`, so a tie yields `a`. */
  function Min(a: int, b: int): (r: int)
    ensures r <= a && r <= b && (r == a || r == b)
  {
    if a <= b then a else b
  }

  /** `_max(a, b)`: `(a >= b) ? a : b`, so a tie yields `a`. */
  function Max(a: int, b: int): (r: int)
    ensures r >= a && r >= b && (r == a || r == b)
  {
    if a >= b then a else b
  }

  function Min3(a: int, b: int, c: int): (r: int)
    ensures r <= a && r <= b && r <= c && (r == a || r == b || r == c)
  {
    Min(Min(a, b), c)
  }

  function Max3(a: int, b: int, c: int): (r: int)
    ensures r >= a && r >= b && r >= c && (r == a || r == b || r == c)
  {
    Max(Max(a, b), c)
  }

  function Abs(a: int): nat
  {
    if a < 0 then -a else a
  }

  /** C's integer `/`: the quotient is truncated toward zero, so the
      remainder `a - q * b` has the sign of `a` (Dafny's `/` is Euclidean). */
  function CDiv(a: int, b: int): (q: int)
    requires b != 0
    ensures Abs(a - q * b) < Abs(b)
    ensures a - q * b == 0 || ((a - q * b > 0) == (a > 0))
  {
    if a >= 0 then
      (if b > 0 then a / b else -(a / -b))
    else
      (if b > 0 then -((-a) / b) else (-a) / (-b))
  }

  /** C's conversion of a float to an integer type: truncation toward zero. */
  function Trunc(r: real): (i: int)
    ensures r >= 0.0 ==> i >= 0 && i as real <= r < i as real + 1.0
    ensures r < 0.0 ==> i <= 0 && i as real - 1.0 < r <= i as real
  {
    if r >= 0.0 then r.Floor else -((-r).Floor)
  }

  /** Bitwise `x & m` for a non-negative mask `m`, on two's-complement `x`
      of any sign (floor halving keeps the sign bits of a negative `x`). */
  function BitAnd(x: int, m: nat): (r: nat)
    ensures r <= m
    decreases m
  {
    if m == 0 then 0 else 2 * BitAnd(x / 2, m / 2) + (x % 2) * (m % 2)
  }

  predicate IsPow2(n: int)
    decreases n
  {
    n == 1 || (n >= 2 && n % 2 == 0 && IsPow2(n / 2))
  }

  lemma MulAtLeast(w: int, d: int)
    requires w > 0 && d >= 1
    ensures w * d >= w
  {
    assert w * d == w + w * (d - 1);
  }

  lemma DoubleMul(h: int, s: int)
    ensures (2 * h) * s == 2 * (h * s)
  {
  }

  lemma EuclidUnique(x: int, w: int, s: int, r: int)
    requires w > 0 && x == w * s + r && 0 <= r < w
    ensures x % w == r && x / w == s
  {
    var q, m := x / w, x % w;
    assert x == w * q + m;
    assert w * (s - q) == m - r by {
      assert w * (s - q) == w * s - w * q;
    }
    if s > q {
      MulAtLeast(w, s - q);
    } else if s < q {
      MulAtLeast(w, q - s);
    }
  }

  /** Splitting off the lowest bit: `x % 2h == 2 * ((x / 2) % h) + x % 2`. */
  lemma HalvingMod(x: int, h: int)
    requires h >= 1
    ensures x % (2 * h) == 2 * ((x / 2) % h) + x % 2
  {
    var q, b := x / 2, x % 2;
    var s, t := q / h, q % h;
    assert x == 2 * q + b;
    assert q == h * s + t;
    assert x == (2 * h) * s + (2 * t + b) by {
      DoubleMul(h, s);
    }
    EuclidUnique(x, 2 * h, s, 2 * t + b);
  }

  /** Masking with `w - 1` for a power of two `w` is Dafny's `%`, negative `x` included. */
  lemma {:induction false} MaskIsMod(x: int, w: int)
    requires IsPow2(w)
    ensures BitAnd(x, w - 1) == x % w
    decreases w
  {
    if w > 1 {
      var h := w / 2;
      assert w == 2 * h && IsPow2(h);
      assert (w - 1) / 2 == h - 1 && (w - 1) % 2 == 1;
      assert BitAnd(x, w - 1) == 2 * BitAnd(x / 2, h - 1) + x % 2;
      MaskIsMod(x / 2, h);
      HalvingMod(x, h);
    }
  }

  /** With power-of-two texture sizes the wrapped texel index stays inside the texture. */
  lemma TexelIndexInRange(u: int, v: int, w: int, h: int, n: int)
    requires w >= 1 && h >= 1 && n == w * h
    ensures 0 <= BitAnd(u, w - 1) < w && 0 <= BitAnd(v, h - 1) < h
    ensures 0 <= BitAnd(u, w - 1) + BitAnd(v, h - 1) * w < n
  {
    RowMajorBound(BitAnd(u, w - 1), BitAnd(v, h - 1), w, h);
  }

  /** A row-major index `x + y * w` into a `w` by `h` grid is below `w * h`. */
  lemma RowMajorBound(x: int, y: int, w: int, h: int)
    requires 0 <= x < w && 0 <= y < h
    ensures 0 <= x + y * w < w * h
  {
    assert (h - 1 - y) * w >= 0;
    assert (h - 1) * w == h * w - w;
    assert (h - 1) * w - y * w == (h - 1 - y) * w;
  }
}
