/** The lesser of two numbers; multiples of a size, for cutting into chunks and going round. */
module Arithmetic {

  function Min(a: nat, b: nat): nat { if a < b then a else b }

  lemma {:induction false} Gap(size: nat, a: nat, b: nat)
    requires a < b
    ensures a * size + size <= b * size
    decreases b
  {
    Successor(size, b - 1);
    if a + 1 < b { Gap(size, a, b - 1); }
  }

  lemma Successor(size: nat, a: nat)
    ensures (a + 1) * size == a * size + size
  {}

  /** The quotient is the only number of whole multiples that leaves less than one. */
  lemma Quotient(n: nat, size: nat, q: nat, r: nat)
    requires n == q * size + r && r < size
    ensures n / size == q && n % size == r
  {
    var p := n / size;
    Division(n, size);
    if p < q { Gap(size, p, q); }
    if q < p { Gap(size, q, p); }
  }

  lemma Division(n: nat, size: nat)
    requires size > 0
    ensures n == n / size * size + n % size && n % size < size
  {}

  lemma SmallRemainder(n: nat, size: nat)
    requires n < size
    ensures n % size == n
  {}

  /** Dividing twice is dividing by the product. */
  lemma DivideTwice(n: nat, a: nat, b: nat)
    requires a > 0 && b > 0
    ensures a * b > 0 && n / a / b == n / (a * b)
  {
    var m, s := n / a, n % a;
    var q, r := m / b, m % b;
    Division(n, a);
    Division(m, b);
    Nested(n, m, q, r, s, a, b);
    Quotient(n, a * b, q, r * a + s);
  }

  lemma Nested(n: nat, m: nat, q: nat, r: nat, s: nat, a: nat, b: nat)
    requires n == m * a + s && m == q * b + r && r < b && s < a
    ensures n == q * (a * b) + (r * a + s) && r * a + s < a * b
  {
    calc {
      m * a;
      (q * b + r) * a;
      q * b * a + r * a;
      q * (a * b) + r * a;
    }
    Gap(a, r, b);
  }
}
