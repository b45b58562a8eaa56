/** The numeric helpers of lib/utils.js.  `Math.random()` is not modelled: the
    random helpers take its value as a parameter `r` in [0, 1). */
module Utils {

  datatype Option<T> = None | Some(value: T)

  /** `Math.min(Math.max(value, lo), hi)`. */
  function Clamp(value: real, lo: real, hi: real): (r: real)
    ensures lo <= hi ==> lo <= r <= hi
    ensures lo <= value <= hi ==> r == value
    ensures lo <= hi && value < lo ==> r == lo
    ensures value > hi ==> r == hi
    ensures lo > hi ==> r == hi
  {
    var atLeast := if value > lo then value else lo;
    if atLeast < hi then atLeast else hi
  }

  /** Clamping an already clamped value changes nothing. */
  lemma ClampIdempotent(value: real, lo: real, hi: real)
    requires lo <= hi
    ensures Clamp(Clamp(value, lo, hi), lo, hi) == Clamp(value, lo, hi)
  {
  }

  /** Maps `value` from the range [inMin, inMax] onto [outMin, outMax]
      linearly. */
  function Map(value: real, inMin: real, inMax: real, outMin: real, outMax: real): (r: real)
    requires inMin != inMax
    ensures value == inMin ==> r == outMin
    ensures value == inMax ==> r == outMax
  {
    ScaleCancels(outMax - outMin, inMax - inMin);
    (value - inMin) * (outMax - outMin) / (inMax - inMin) + outMin
  }

  /** Scaling by `a` and dividing by it again cancels. */
  lemma ScaleCancels(c: real, a: real)
    requires a != 0.0
    ensures a * c / a == c && c * a / a == c
  {
  }

  /** Dividing the product `p = x * c` by `c` gives back `x`. */
  lemma ProductOver(x: real, c: real, p: real)
    requires c != 0.0 && p == x * c
    ensures p / c == x
  {
  }

  /** Multiplying the quotient `q = p / a` by `a` gives back `p`. */
  lemma QuotientTimes(p: real, a: real, q: real)
    requires a != 0.0 && q == p / a
    ensures q * a == p
  {
  }

  /** Mapping back from the output range recovers the input. */
  lemma MapRoundTrip(value: real, inMin: real, inMax: real, outMin: real, outMax: real)
    requires inMin != inMax && outMin != outMax
    ensures Map(Map(value, inMin, inMax, outMin, outMax), outMin, outMax, inMin, inMax) == value
  {
    var a, c := inMax - inMin, outMax - outMin;
    var p := (value - inMin) * c;
    var q := p / a;
    assert Map(value, inMin, inMax, outMin, outMax) - outMin == q;
    QuotientTimes(p, a, q);
    ProductOver(value - inMin, c, p);
    assert q * a / c == value - inMin;
  }

  /** Mapping preserves order when both ranges run the same way. */
  lemma MapMonotonic(v1: real, v2: real, inMin: real, inMax: real, outMin: real, outMax: real)
    requires inMin < inMax && outMin <= outMax && v1 <= v2
    ensures Map(v1, inMin, inMax, outMin, outMax) <= Map(v2, inMin, inMax, outMin, outMax)
  {
    var a, c := inMax - inMin, outMax - outMin;
    var p1, p2 := (v1 - inMin) * c, (v2 - inMin) * c;
    OrderedProducts(v1 - inMin, v2 - inMin, c, p1, p2);
    OrderedQuotients(p1, p2, a, p1 / a, p2 / a);
  }

  /** Multiplying by a non-negative `c` keeps order. */
  lemma OrderedProducts(x1: real, x2: real, c: real, p1: real, p2: real)
    requires x1 <= x2 && 0.0 <= c && p1 == x1 * c && p2 == x2 * c
    ensures p1 <= p2
  {
    var d, e := x2 - x1, p2 - p1;
    assert e == d * c;
  }

  /** Dividing by a positive `a` keeps order. */
  lemma OrderedQuotients(p1: real, p2: real, a: real, q1: real, q2: real)
    requires p1 <= p2 && 0.0 < a && q1 == p1 / a && q2 == p2 / a
    ensures q1 <= q2
  {
    QuotientTimes(p1, a, q1);
    QuotientTimes(p2, a, q2);
  }

  /** Linear interpolation `a + (b - a) * t`. */
  function Lerp(a: real, b: real, t: real): (r: real)
    ensures t == 0.0 ==> r == a
    ensures t == 1.0 ==> r == b
    ensures a <= b && 0.0 <= t <= 1.0 ==> a <= r <= b
  {
    FractionOf(t, b - a, (b - a) * t);
    a + (b - a) * t
  }

  /** The product `e = t * d` of a fraction `t` and an amount `d` lies
      between 0 and `d`, strictly short of `d` when `t < 1`.  (The product is
      passed in so that callers can name it as their own expression.) */
  lemma FractionOf(t: real, d: real, e: real)
    requires e == t * d
    ensures 0.0 <= t <= 1.0 && 0.0 <= d ==> 0.0 <= e <= d
    ensures 0.0 <= t < 1.0 && 0.0 < d ==> e < d
    ensures 0.0 <= t < 1.0 && d < 0.0 ==> d < e <= 0.0
  {
    if 0.0 <= t <= 1.0 && 0.0 <= d {
      assert 0.0 <= e;
      assert e <= d;
    }
    if 0.0 <= t < 1.0 && 0.0 < d {
      FractionOfPositive(t, d, e);
    }
    if 0.0 <= t < 1.0 && d < 0.0 {
      FractionOfNegative(t, d, e);
    }
  }

  lemma FractionOfPositive(t: real, d: real, e: real)
    requires 0.0 <= t < 1.0 && 0.0 < d && e == t * d
    ensures 0.0 <= e < d
  {
  }

  lemma FractionOfNegative(t: real, d: real, e: real)
    requires 0.0 <= t < 1.0 && d < 0.0 && e == t * d
    ensures d < e <= 0.0
  {
  }

  /** `Math.random() * (max - min) + min`, with `r` standing for
      `Math.random()`. */
  function Random(r: real, min: real, max: real): (x: real)
    requires 0.0 <= r < 1.0
    ensures min < max ==> min <= x < max
    ensures min == max ==> x == min
    ensures max < min ==> max < x <= min
  {
    FractionOf(r, max - min, r * (max - min));
    r * (max - min) + min
  }

  /** `Math.floor(random(min, max + 1))`. */
  function RandomInt(r: real, min: int, max: int): (n: int)
    requires 0.0 <= r < 1.0
    ensures min <= max ==> min <= n <= max
  {
    Random(r, min as real, (max + 1) as real).Floor
  }

  /** The index `Math.floor(Math.random() * arr.length)`. */
  function ChoiceIndex(r: real, length: nat): (i: int)
    requires 0.0 <= r < 1.0
    ensures length > 0 ==> 0 <= i < length
    ensures length == 0 ==> i == 0
  {
    FractionOf(r, length as real, r * length as real);
    (r * length as real).Floor
  }

  /** `arr[Math.floor(Math.random() * arr.length)]`; an empty array yields
      `undefined`, modelled as `None`. */
  function RandomChoice<T>(r: real, arr: seq<T>): (x: Option<T>)
    requires 0.0 <= r < 1.0
    ensures x.Some? <==> |arr| > 0
    ensures x.Some? ==> x.value in arr
  {
    var i := ChoiceIndex(r, |arr|);
    if 0 <= i < |arr| then Some(arr[i]) else None
  }
}
