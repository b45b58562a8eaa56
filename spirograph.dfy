/** Euclid's algorithm of 013-spirograph/sketch.js and the closing-rotation
    count `draw` derives from it. */
module Spirograph {
  import Utils

  /** `Math.abs` on integers. */
  function Abs(n: int): (r: nat)
    ensures r == n || r == -n
  {
    if n < 0 then -n else n
  }

  /** `Math.round`: the nearest integer, halves rounded up. */
  function Round(x: real): (n: int)
    ensures n as real - 0.5 <= x < n as real + 0.5
  {
    (x + 0.5).Floor
  }

  /** Rounding a whole number leaves it as it is. */
  lemma RoundWhole(n: int)
    ensures Round(n as real) == n
  {
  }

  /** `d` divides `n`. */
  ghost predicate Divides(d: int, n: int)
  {
    exists k: int :: n == d * k
  }

  lemma DividesSelfAndZero(d: int)
    ensures Divides(d, d) && Divides(d, 0)
  {
    assert d == d * 1;
    assert 0 == d * 0;
  }

  /** A common divisor of `a` and `b` divides `a + q * b`. */
  lemma DividesCombination(d: int, a: int, b: int, q: int)
    requires Divides(d, a) && Divides(d, b)
    ensures Divides(d, a + q * b)
  {
    var ka :| a == d * ka;
    var kb :| b == d * kb;
    assert a + q * b == d * (ka + q * kb);
  }

  /** A positive divisor of a positive number is at most that number. */
  lemma DivisorBound(d: int, n: int)
    requires 0 < d && 0 < n && Divides(d, n)
    ensures d <= n
  {
    var k :| n == d * k;
  }

  /** Dividing an exact multiple `n = d * k` by `d` gives `k`. */
  lemma ExactQuotient(n: int, d: int, k: int)
    requires 0 < d && n == d * k
    ensures n / d == k
  {
    var q, r := n / d, n % d;
    assert n == d * q + r;
    var j := k - q;
    assert d * j == r;
    SmallMultipleIsZero(d, j, r);
  }

  /** The only multiple of `d` in [0, d) is 0. */
  lemma SmallMultipleIsZero(d: int, j: int, p: int)
    requires 0 < d && p == d * j && 0 <= p < d
    ensures j == 0
  {
    MultipleSign(d, j, p);
  }

  /** A multiple `p = d * j` of a positive `d` is at least `d` for positive `j`
      and at most `-d` for negative `j`. */
  lemma MultipleSign(d: int, j: int, p: int)
    requires 0 < d && p == d * j
    ensures 1 <= j ==> d <= p
    ensures j <= -1 ==> p <= -d
    ensures j == 0 ==> p == 0
  {
  }

  /** For a positive divisor `g` of a positive `r`, the quotient `r / g` is
      exact and lies in [1, r]. */
  lemma QuotientOfDivisor(r: int, g: int)
    requires 0 < g && 0 < r && Divides(g, r)
    ensures 1 <= r / g <= r && (r / g) * g == r
  {
    var k :| r == g * k;
    MultipleSign(g, k, r);
    ExactQuotient(r, g, k);
    assert r - k == (g - 1) * k;
    MultipleSign(k, g - 1, r - k);
  }

  /** When `g` divides `|R|` and `q * g == r`, `r` divides `q * R`: after `q`
      turns around the fixed circle the rolling circle has turned a whole
      number `q * R / r` of times, so the curve closes. */
  lemma ClosesAfterRotations(R: int, r: int, g: int, q: int)
    requires 0 < g && Divides(g, Abs(R)) && q * g == r
    ensures Divides(r, q * R)
  {
    var m :| Abs(R) == g * m;
    if R < 0 {
      assert q * R == r * -m;
    } else {
      assert q * R == r * m;
    }
  }

  /** `x` and `y` have the same common divisors as `y` and `x % y`. */
  lemma EuclidStep(x: int, y: int, d: int)
    requires y != 0
    ensures Divides(d, x) && Divides(d, y) <==> Divides(d, y) && Divides(d, x % y)
  {
    var q := x / y;
    assert x == x % y + q * y;
    assert x % y == x + (-q) * y;
    if Divides(d, x) && Divides(d, y) {
      DividesCombination(d, x, y, -q);
    }
    if Divides(d, y) && Divides(d, x % y) {
      DividesCombination(d, x % y, y, q);
    }
  }

  /** `gcd(a, b)`: both arguments are rounded and made non-negative, then
      `b, a := a % b, b` runs until `b` is zero. */
  method Gcd(a: real, b: real) returns (g: int)
    ensures var a0, b0 := Abs(Round(a)), Abs(Round(b));
      && 0 <= g
      && Divides(g, a0) && Divides(g, b0)
      && (forall d :: Divides(d, a0) && Divides(d, b0) ==> Divides(d, g))
      && (b0 == 0 ==> g == a0)
      && (a0 != 0 || b0 != 0 ==> 0 < g && forall d :: 0 < d && Divides(d, a0) && Divides(d, b0) ==> d <= g)
  {
    ghost var a0, b0 := Abs(Round(a)), Abs(Round(b));
    var x: int := Abs(Round(a));
    var y: int := Abs(Round(b));
    while y != 0
      invariant 0 <= x && 0 <= y
      invariant forall d :: Divides(d, x) && Divides(d, y) <==> Divides(d, a0) && Divides(d, b0)
      invariant b0 == 0 ==> x == a0 && y == 0
      invariant a0 != 0 || b0 != 0 ==> x != 0 || y != 0
      decreases y
    {
      forall d ensures Divides(d, x) && Divides(d, y) <==> Divides(d, y) && Divides(d, x % y) {
        EuclidStep(x, y, d);
      }
      var t := y;
      y := x % y;
      x := t;
    }
    g := x;
    DividesSelfAndZero(g);
    forall d | Divides(d, a0) && Divides(d, b0) ensures Divides(d, g) {
    }
    if a0 != 0 || b0 != 0 {
      forall d | 0 < d && Divides(d, a0) && Divides(d, b0) ensures d <= g {
        DivisorBound(d, g);
      }
    }
  }

  /** The two radii `draw` picks: `R = floor(random(120, 280))` and
      `r = floor(random(15, R * 0.85))`, with `u1` and `u2` standing for the
      two `Math.random()` values. */
  function Radii(u1: real, u2: real): (radii: (int, int))
    requires 0.0 <= u1 < 1.0 && 0.0 <= u2 < 1.0
    ensures 120 <= radii.0 < 280
    ensures 15 <= radii.1 && radii.1 as real < radii.0 as real * 0.85
    ensures radii.1 < radii.0
  {
    var R := Utils.Random(u1, 120.0, 280.0).Floor;
    var r := Utils.Random(u2, 15.0, R as real * 0.85).Floor;
    (R, r)
  }

  /** `rotations = r / gcd(R, r)` and `steps = max(800, rotations * 120)`:
      after `rotations` turns of the rolling circle the curve closes. */
  method PatternLength(R: int, r: int) returns (g: int, rotations: int, steps: int)
    requires 0 < r
    ensures 0 < g && Divides(g, Abs(R)) && Divides(g, r)
    ensures forall d :: Divides(d, Abs(R)) && Divides(d, r) ==> Divides(d, g)
    ensures 1 <= rotations <= r && rotations * g == r
    ensures Divides(r, rotations * R)
    ensures 800 <= steps && rotations * 120 <= steps
    ensures steps == 800 || steps == rotations * 120
  {
    RoundWhole(R);
    RoundWhole(r);
    g := Gcd(R as real, r as real);
    rotations := r / g;
    QuotientOfDivisor(r, g);
    ClosesAfterRotations(R, r, g, rotations);
    steps := if 800 > rotations * 120 then 800 else rotations * 120;
  }
}
