/** Congruences by explicit multiples, and inverses of odd numbers modulo powers of two. */
module Modular {
  import opened Common

  ghost predicate Times(m: int, n: int, q: int) {
    m == q * n
  }

  ghost predicate Multiple(m: int, n: int) {
    exists q: int :: Times(m, n, q)
  }

  lemma MultipleOf(q: int, n: int)
    ensures Multiple(q * n, n)
  {
    assert Times(q * n, n, q);
  }

  lemma MultipleAdd(a: int, b: int, n: int)
    requires Multiple(a, n) && Multiple(b, n)
    ensures Multiple(a + b, n) && Multiple(a - b, n)
  {
    var p: int, q: int :| Times(a, n, p) && Times(b, n, q);
    assert Times(a + b, n, p + q) && Times(a - b, n, p - q);
  }

  lemma MultipleScale(a: int, n: int, c: int)
    requires Multiple(a, n)
    ensures Multiple(a * c, n)
  {
    var q: int :| Times(a, n, q);
    assert a * c == (q * c) * n;
    assert Times(a * c, n, q * c);
  }

  lemma MultipleOfMultiple(a: int, n: int, l: int)
    requires Multiple(a, n) && Multiple(n, l)
    ensures Multiple(a, l)
  {
    var p: int, q: int :| Times(a, n, p) && Times(n, l, q);
    assert a == (p * q) * l;
    assert Times(a, l, p * q);
  }

  lemma ModIsCongruent(a: int, n: nat)
    requires n > 0
    ensures Multiple(a - a % n, n)
  {
    assert a == n * (a / n) + a % n;
    assert Times(a - a % n, n, a / n);
  }

  /** A multiple of `n` smaller than `n` in size is zero. */
  lemma SmallMultiple(a: int, n: int)
    requires n > 0 && Multiple(a, n) && -n < a < n
    ensures a == 0
  {
    var q: int :| Times(a, n, q);
    if q >= 1 { MulMonotone(1, q, n); }
    if q <= -1 { MulMonotone(q, -1, n); }
  }

  /** From an inverse modulo `p` to one modulo `2 * p`. */
  lemma LiftInverse(v: int, s: int, p: int) returns (u: int)
    requires s % 2 == 1 && Multiple(v * s - 1, p)
    ensures Multiple(u * s - 1, 2 * p)
  {
    var q: int :| Times(v * s - 1, p, q);
    if q % 2 == 0 {
      u := v;
      DoubledTimes(u * s - 1, p, q / 2);
    } else {
      u := v + p;
      Raised(v, s, p, q);
      DoubledTimes(u * s - 1, p, (q + s) / 2);
    }
  }

  lemma Raised(v: int, s: int, p: int, q: int)
    requires v * s - 1 == q * p && q % 2 == 1 && s % 2 == 1
    ensures (v + p) * s - 1 == (2 * ((q + s) / 2)) * p
  {
    var h := q + s;
    assert 2 * (h / 2) == h;
    assert h * p == q * p + s * p;
    assert (v + p) * s == v * s + s * p;
  }

  lemma DoubledTimes(a: int, p: int, h: int)
    requires a == (2 * h) * p
    ensures Multiple(a, 2 * p)
  {
    assert (2 * h) * p == h * (2 * p);
    assert Times(a, 2 * p, h);
  }

  /** An odd number has an inverse modulo every power of two. */
  lemma {:induction false} OddInverse(e: nat, s: int) returns (u: int)
    requires s % 2 == 1
    ensures Multiple(u * s - 1, Pow2(e))
  {
    if e == 0 {
      u := 0;
      assert Times(0 * s - 1, Pow2(0), -1);
    } else {
      hide Multiple;
      var v := OddInverse(e - 1, s);
      u := LiftInverse(v, s, Pow2(e - 1));
    }
  }

  /** Powers of two divide larger ones. */
  lemma PowerDivides(a: nat, b: nat)
    requires a <= b
    ensures Multiple(Pow2(b), Pow2(a))
  {
    Pow2Sum(b - a, a);
    assert Times(Pow2(b), Pow2(a), Pow2(b - a));
  }
}
