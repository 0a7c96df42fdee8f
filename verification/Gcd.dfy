// The greatest common divisor computed by console_logger/getopt.h, and the
// number theory that the block exchange in the same file rests on.
module Gcds {

  predicate Divides(d: nat, a: int)
    requires d > 0
  {
    a % d == 0
  }

  /** g divides both arguments and no larger number does. */
  ghost predicate IsGreatestCommonDivisor(g: nat, a: nat, b: nat) {
    && g > 0 && Divides(g, a) && Divides(g, b)
    && forall d: nat :: d > 0 && Divides(d, a) && Divides(d, b) ==> d <= g
  }

  /** Euclid's recursion; the loop of the method below unrolls it. */
  function Gcd(a: nat, b: nat): (g: nat)
    requires b > 0
    ensures g > 0
    decreases b
  {
    if a % b == 0 then b else Gcd(b, a % b)
  }

  lemma PositiveFactor(k: int, d: nat)
    requires d > 0
    ensures k * d > 0 <==> k >= 1
    ensures k * d < d <==> k <= 0
  {
  }

  lemma Distribute(x: int, y: int, d: int)
    ensures (x + y) * d == x * d + y * d
    ensures (x - y) * d == x * d - y * d
  {
  }

  lemma Associate(x: int, y: int, z: int)
    ensures (x * y) * z == x * (y * z)
  {
  }

  /** Division is determined by its defining equation. */
  lemma QuotientOf(a: int, d: nat, q: int, r: nat)
    requires r < d && a == q * d + r
    ensures a / d == q && a % d == r
  {
    QuotientIsUnique(d, a / d, a % d, q, r);
  }

  lemma QuotientIsUnique(d: nat, p: int, s: nat, q: int, r: nat)
    requires r < d && s < d && p * d + s == q * d + r
    ensures p == q && s == r
  {
    Distribute(q, p, d);
    PositiveFactor(q - p, d);
    Distribute(p, q, d);
    PositiveFactor(p - q, d);
  }

  lemma Cofactor(d: nat, a: int) returns (p: int)
    requires d > 0 && Divides(d, a)
    ensures a == p * d
  {
    p := a / d;
  }

  /** The result divides both arguments and is an integer combination of them. */
  lemma {:induction false} Bezout(a: nat, b: nat) returns (x: int, y: int, k: nat, m: nat)
    requires b > 0
    ensures x * a + y * b == Gcd(a, b)
    ensures a == k * Gcd(a, b) && b == m * Gcd(a, b)
    decreases b
  {
    var q, c := a / b, a % b;
    if c == 0 {
      x, y, k, m := 0, 1, q, 1;
    } else {
      x, y, k, m := Bezout(b, c);
      x, y, k, m := EuclidStep(a, b, q, c, x, y, k, m, Gcd(b, c));
    }
  }

  /** One unrolling of Euclid's recursion, on the cofactors alone. */
  lemma EuclidStep(a: nat, b: nat, q: nat, c: nat, x0: int, y0: int, k0: nat, m0: nat, g: nat)
      returns (x: int, y: int, k: nat, m: nat)
    requires a == q * b + c
    requires x0 * b + y0 * c == g && b == k0 * g && c == m0 * g
    ensures x * a + y * b == g && a == k * g && b == m * g
  {
    x, y := y0, x0 - q * y0;
    k, m := q * k0 + m0, k0;
    CombineCofactors(b, q, c, x0, y0);
    CombineMultiples(q, k0, m0, g);
  }

  lemma CombineCofactors(b: int, q: int, c: int, x: int, y: int)
    ensures y * (q * b + c) + (x - q * y) * b == x * b + y * c
  {
    Distribute(x, q * y, b);
    Associate(y, q, b);
    Distribute(q * b, c, y);
  }

  lemma CombineMultiples(q: int, k: int, m: int, g: int)
    ensures (q * k + m) * g == q * (k * g) + m * g
  {
    Distribute(q * k, m, g);
    Associate(q, k, g);
  }

  lemma GcdIsGreatest(a: nat, b: nat)
    requires b > 0
    ensures IsGreatestCommonDivisor(Gcd(a, b), a, b)
  {
    var x, y, k, m := Bezout(a, b);
    QuotientOf(a, Gcd(a, b), k, 0);
    QuotientOf(b, Gcd(a, b), m, 0);
    forall d: nat | d > 0 && Divides(d, a) && Divides(d, b)
      ensures d <= Gcd(a, b)
    {
      CombinationBounds(d, a, b, x, y, Gcd(a, b));
    }
  }

  lemma CombinationBounds(d: nat, a: nat, b: nat, x: int, y: int, g: nat)
    requires d > 0 && Divides(d, a) && Divides(d, b)
    requires x * a + y * b == g && g > 0
    ensures d <= g
  {
    var p := Cofactor(d, a);
    var q := Cofactor(d, b);
    CombinationIsMultiple(d, p, q, x, y);
    PositiveFactor(x * p + y * q, d);
  }

  lemma CombinationIsMultiple(d: nat, p: int, q: int, x: int, y: int)
    ensures x * (p * d) + y * (q * d) == (x * p + y * q) * d
  {
    Distribute(x * p, y * q, d);
    Associate(x, p, d);
    Associate(y, q, d);
  }

  /** console_logger/getopt.h, gcd: the remainder loop. */
  method ComputeGcd(a0: nat, b0: nat) returns (g: nat)
    requires b0 > 0
    ensures IsGreatestCommonDivisor(g, a0, b0)
    ensures g == Gcd(a0, b0)
  {
    var a, b := a0, b0;
    var c := a % b;
    while c != 0
      invariant b > 0 && c == a % b
      invariant Gcd(a, b) == Gcd(a0, b0)
      decreases c
    {
      a := b;
      b := c;
      c := a % b;
    }
    GcdIsGreatest(a0, b0);
    return b;
  }
}
