/** Greatest common divisors, by Euclid's algorithm, and Bezout's identity. */
module Divisors {
  function Gcd(a: nat, b: nat): (g: nat)
    requires a > 0 || b > 0
    ensures g > 0
    decreases b
  {
    if b == 0 then a else Gcd(b, a % b)
  }

  ghost predicate Divides(g: int, n: int) { exists k: int :: n == k * g }

  /** The divisor is a combination of the two numbers and divides both: no common one is greater. */
  lemma {:induction false} Bezout(a: nat, b: nat) returns (u: int, v: int)
    requires a > 0 || b > 0
    ensures a * u + b * v == Gcd(a, b)
    ensures Divides(Gcd(a, b), a) && Divides(Gcd(a, b), b)
    decreases b
  {
    hide Divides;
    if b == 0 {
      u, v := 1, 0;
      DividesItself(a);
    } else {
      var q, r := a / b, a % b;
      var u', v' := Bezout(b, r);
      u, v := v', u' - q * v';
      assert a == b * q + r;
      Recombine(a, b, q, r, u', v');
      Combine(a, b, q, r, Gcd(a, b));
    }
  }

  lemma DividesItself(a: int)
    ensures Divides(a, a) && Divides(a, 0)
  {
    assert a == 1 * a && 0 == 0 * a;
  }

  lemma Recombine(a: int, b: int, q: int, r: int, u: int, v: int)
    requires a == b * q + r
    ensures a * v + b * (u - q * v) == b * u + r * v
  {
    assert a * v == b * q * v + r * v;
    assert b * (u - q * v) == b * u - b * q * v;
  }

  lemma Combine(a: int, b: int, q: int, r: int, g: int)
    requires a == b * q + r && Divides(g, b) && Divides(g, r)
    ensures Divides(g, a)
  {
    var k :| b == k * g;
    var l :| r == l * g;
    Collect(k, l, q, 1, g);
  }

  lemma Collect(k: int, l: int, u: int, v: int, d: int)
    ensures Divides(d, k * d * u + l * d * v)
  {
    assert k * d * u + l * d * v == (k * u + l * v) * d;
  }

  lemma TimesMonotone(k: int, l: int, g: nat)
    requires k <= l
    ensures k * g <= l * g
  {
    assert (l - k) * g >= 0;
  }

  lemma TimesApart(g: nat, k: int, l: int)
    requires k * g < l * g
    ensures k * g + g <= l * g
  {
    if l <= k {
      TimesMonotone(l, k, g);
      assert false;
    }
    TimesMonotone(k + 1, l, g);
  }

  /** Two multiples of g that differ, differ by g at least. */
  lemma MultiplesApart(g: nat, m: int, n: int)
    requires Divides(g, m) && Divides(g, n) && m < n
    ensures m + g <= n
  {
    var k :| m == k * g;
    var l :| n == l * g;
    TimesApart(g, k, l);
  }
}
