/**
  The numeric helpers of client/jni/AudioTool.{h,cpp}, over exact reals: truncation, `fmod`, the
  position of a point of an unbounded tape inside a circular store, and linear interpolation.
 */
module AudioTool {

  /** C's conversion of a floating value to an integer: towards zero. */
  function Trunc(x: real): int {
    if x >= 0.0 then x.Floor else -(-x).Floor
  }

  /** C's `ceil`. */
  function Ceil(x: real): (c: int)
    ensures (c - 1) as real < x <= c as real
  {
    -(-x).Floor
  }

  /** C's `fmod` for a non-negative dividend. */
  function Fmod(x: real, n: nat): real
    requires x >= 0.0 && n > 0
  {
    x - (x / n as real).Floor as real * n as real
  }

  /** Where tape position `p` lies in a store of `n` samples. */
  function RingPosition(p: real, n: nat): real
    requires n > 0
  {
    if p >= 0.0 then Fmod(p, n) else n as real - Fmod(-p, n)
  }

  /** The value a fraction `t` of the way from `a` to `b`. */
  function Lerp(a: real, b: real, t: real): real {
    a + (b - a) * t
  }

  /** Fractional part. */
  function Frac(x: real): (f: real)
    ensures 0.0 <= f < 1.0
  {
    x - x.Floor as real
  }

  lemma MulGrows(d: int, n: nat)
    ensures d >= 1 ==> d * n >= n
    ensures d <= -1 ==> d * n <= 0 - n
  {
  }

  lemma DivModUnique(a: int, n: nat, q: int, r: int)
    requires n > 0 && 0 <= r < n && a == q * n + r
    ensures a / n == q && a % n == r
  {
    var d := a / n - q;
    assert a == a / n * n + a % n;
    assert d * n == a / n * n - q * n;
    assert d * n == r - a % n;
    MulGrows(d, n);
  }

  lemma MulUnit(d: real, m: real)
    requires 0.0 <= d < 1.0 && m > 0.0
    ensures 0.0 <= d * m < m
  {
    assert (1.0 - d) * m > 0.0;
  }

  lemma MulBetween(q: real, y: real, m: real, x: real)
    requires q <= y < q + 1.0 && m > 0.0 && y * m == x
    ensures q * m <= x < q * m + m
  {
    var d := y - q;
    assert d * m == x - q * m;
    MulUnit(d, m);
  }

  lemma DivTimes(x: real, m: real)
    requires m > 0.0
    ensures x / m * m == x
  {
  }

  lemma CastProduct(q: int, n: nat)
    ensures (q * n) as real == q as real * n as real
  {
  }

  lemma QuotientBounds(x: real, n: nat)
    requires n > 0
    ensures var q := (x / n as real).Floor; (q * n) as real <= x < (q * n + n) as real
  {
    var m := n as real;
    var y := x / m;
    var q := y.Floor;
    DivTimes(x, m);
    MulBetween(q as real, y, m, x);
    CastProduct(q, n);
  }

  /** `fmod` keeps the fraction and reduces the integer part. */
  lemma FmodParts(x: real, n: nat)
    requires x >= 0.0 && n > 0
    ensures Fmod(x, n) == (x.Floor % n) as real + Frac(x)
  {
    QuotientBounds(x, n);
    var q := (x / n as real).Floor;
    FmodIs(x, n, q);
    DivModUnique(x.Floor, n, q, x.Floor - q * n);
  }

  lemma FmodIs(x: real, n: nat, q: int)
    requires x >= 0.0 && n > 0 && q == (x / n as real).Floor
    ensures Fmod(x, n) == x - (q * n) as real
  {
    CastProduct(q, n);
  }

  /** A point one store length below zero, or any further multiple of it. */
  predicate NegativeMultiple(p: real, n: nat)
    requires n > 0
  {
    p < 0.0 && p == p.Floor as real && p.Floor % n == 0
  }

  /**
    The position lies in the store, on the slot of the integer part and with the fraction unchanged,
    exactly when `p` is not a negative multiple of the store length; there it is one past the end.
   */
  lemma RingPositionExact(p: real, n: nat)
    requires n > 0
    ensures NegativeMultiple(p, n) <==> RingPosition(p, n) == n as real
    ensures !NegativeMultiple(p, n) <==> 0.0 <= RingPosition(p, n) < n as real
    ensures !NegativeMultiple(p, n) ==>
              RingPosition(p, n).Floor == p.Floor % n && Frac(RingPosition(p, n)) == Frac(p)
  {
    if p >= 0.0 {
      FmodParts(p, n);
    } else {
      FmodParts(-p, n);
      var f := (-p).Floor;
      var m := f % n;
      assert f == f / n * n + m;
      if Frac(-p) == 0.0 {
        assert p.Floor == -f;
        if m == 0 {
          DivModUnique(-f, n, -(f / n), 0);
        } else {
          DivModUnique(-f, n, -(f / n) - 1, n - m);
        }
      } else {
        assert p.Floor == -f - 1;
        DivModUnique(-f - 1, n, -(f / n) - 1, n - m - 1);
      }
    }
  }
}
