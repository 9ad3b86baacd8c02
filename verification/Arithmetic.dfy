/**
 Products as repeated addition. The proofs about addresses, blocks and digits follow the
 addition one term at a time.
 */
module Arithmetic {
  /** `n * part`, one part at a time. */
  function Times(n: nat, part: nat): nat {
    if n == 0 then 0 else Times(n - 1, part) + part
  }

  lemma {:induction false} TimesIs(n: nat, part: nat)
    ensures Times(n, part) == n * part
  {
    if n > 0 { TimesIs(n - 1, part); }
  }

  lemma TimesCommutes(m: nat, n: nat)
    ensures Times(m, n) == Times(n, m)
  {
    TimesIs(m, n);
    TimesIs(n, m);
  }

  /** `a * b`, as the code multiplies. */
  function Product(a: nat, b: nat): (r: nat)
    ensures r == Times(a, b)
  {
    TimesIs(a, b);
    a * b
  }

  lemma {:induction false} TimesGrows(n: nat, m: nat, part: nat)
    requires n <= m
    ensures Times(n, part) <= Times(m, part)
  {
    if n < m { TimesGrows(n, m - 1, part); }
  }

  lemma {:induction false} TimesAdd(m: nat, n: nat, part: nat)
    ensures Times(m + n, part) == Times(m, part) + Times(n, part)
  {
    if n > 0 { TimesAdd(m, n - 1, part); }
  }

  lemma {:induction false} TimesTwice(m: nat, n: nat, part: nat)
    ensures Times(Times(m, n), part) == Times(m, Times(n, part))
  {
    if m > 0 {
      TimesTwice(m - 1, n, part);
      TimesAdd(Times(m - 1, n), n, part);
    }
  }

  lemma {:induction false} TimesAtLeast(n: nat, part: nat)
    ensures part >= 1 ==> n <= Times(n, part)
    ensures part >= 2 ==> 2 * n <= Times(n, part)
    ensures part == 0 ==> Times(n, part) == 0
  {
    if n > 0 { TimesAtLeast(n - 1, part); }
  }

  /** Quotient and remainder. */
  lemma Division(v: nat, d: nat)
    requires d > 0
    ensures v == Times(v / d, d) + v % d && v % d < d
    ensures v < Times(v / d + 1, d)
  {
    TimesIs(v / d, d);
    assert v == (v / d) * d + v % d;
  }
}
